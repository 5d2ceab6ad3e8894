/** The WebSocket server of src/server.ts: the registry of shared documents,
    each document's connections and awareness, the sync and awareness
    message handlers, and the handshake of a new connection.  Every method
    that can set off the send / closeConn / awareness cascade is proved to
    produce exactly the `Sessions` function of the same name. */
module Server {
  import opened Wrappers
  import opened Yjs
  import opened Sessions
  import opened UpdateLog
  import DurableStorage

  /** `messageSync` and `messageAwareness`. */
  const MessageSync: nat := 0
  const MessageAwareness: nat := 1

  /** What `readSyncMessage` did: the bytes it wrote to the reply encoder
      after the message type (empty when it wrote none), and the update it
      applied to the document when that changed the document. */
  datatype SyncOutcome = SyncOutcome(reply: Bytes, applied: Option<Bytes>)

  /** What `applyAwarenessUpdate` did: the new states and the change its
      `update` event reports. */
  datatype AwarenessApplied = AwarenessApplied(states: map<ClientId, Bytes>, change: AwarenessChange)

  /** The lib0 and y-protocols decoders, left uninterpreted; None stands
      for a decoder that throws. */
  datatype Codecs = Codecs(
    readMessageType: Bytes -> Option<(nat, Bytes)>,
    readSyncMessage: (YDoc, Bytes) -> Option<SyncOutcome>,
    applyAwarenessUpdate: (map<ClientId, Bytes>, Bytes) -> Option<AwarenessApplied>)

  /** The data of a WebSocket `message` event. */
  datatype Incoming = Binary(data: Bytes) | Text(text: string)

  /** How `messageListener` reads a message. */
  datatype Decoded =
    | Malformed
    | Sync(outcome: SyncOutcome)
    | Awareness(applied: AwarenessApplied)
    | Unhandled(messageType: nat)

  function Decode(codecs: Codecs, content: YDoc, states: map<ClientId, Bytes>, message: Bytes): (d: Decoded)
    ensures codecs.readMessageType(message).None? ==> d == Malformed
    ensures d.Unhandled? <==>
      codecs.readMessageType(message).Some? && codecs.readMessageType(message).value.0 !in {MessageSync, MessageAwareness}
    ensures d.Sync? ==> codecs.readMessageType(message).Some? && codecs.readMessageType(message).value.0 == MessageSync
    ensures d.Awareness? ==> codecs.readMessageType(message).Some? && codecs.readMessageType(message).value.0 == MessageAwareness
  {
    match codecs.readMessageType(message)
    case None => Malformed
    case Some((messageType, rest)) =>
      if messageType == MessageSync then
        match codecs.readSyncMessage(content, rest)
        case None => Malformed
        case Some(outcome) => Sync(outcome)
      else if messageType == MessageAwareness then
        match codecs.applyAwarenessUpdate(states, rest)
        case None => Malformed
        case Some(applied) => Awareness(applied)
      else Unhandled(messageType)
  }

  /** The update a message applied to the document, if any. */
  function AppliedUpdate(d: Decoded): Option<Bytes> {
    if d.Sync? then d.outcome.applied else None
  }

  /** What `messageListener` does to the session: an applied update goes to
      every connection (the `update` event's `updateHandler`), a non-empty
      reply goes back to the sender; an awareness update replaces the
      states and, when its `update` event fires, runs the awareness handler
      with the sender as origin; anything else changes nothing. */
  function ListenerEffect(s: Session, name: string, conn: ConnId, d: Decoded): (r: Session)
    requires Wired(s) && conn in s.net
    ensures Shrinks(s, r)
  {
    match d
    case Sync(outcome) =>
      var s1 := if outcome.applied.Some? then Broadcast(s, name, SyncUpdate(outcome.applied.value)) else s;
      if |outcome.reply| > 0 then Send(s1, name, conn, SyncReply(outcome.reply)) else s1
    case Awareness(applied) =>
      var s1 := s.(awareness := applied.states);
      if IsEmpty(applied.change) then s1 else AwarenessChangeHandler(s1, name, applied.change, Some(conn))
    case _ => s
  }

  /** The `storeUpdate` calls the document's persisting `update` listener
      makes for a message: one for an applied update, when `bindState`
      registered the listener. */
  function PersistJobs(persistent: bool, name: string, d: Decoded): (jobs: seq<Job>)
    ensures |jobs| <= 1
    ensures jobs != [] <==> persistent && AppliedUpdate(d).Some?
    ensures jobs != [] ==> jobs[0] == StoreUpdateJob(name, AppliedUpdate(d).value)
  {
    if persistent && AppliedUpdate(d).Some? then [StoreUpdateJob(name, AppliedUpdate(d).value)] else []
  }

  /** Whatever a message does to the session is bookkeeping the registry
      invariant survives, and of the sockets outside the document only the
      sender's can be closed. */
  lemma ListenerEffectBookkept(s: Session, name: string, conn: ConnId, d: Decoded)
    requires Wired(s) && conn in s.net
    ensures Bookkept(s, ListenerEffect(s, name, conn, d), name, {conn})
  {
    var r := ListenerEffect(s, name, conn, d);
    match d {
      case Sync(outcome) =>
        var s1 := if outcome.applied.Some? then Broadcast(s, name, SyncUpdate(outcome.applied.value)) else s;
        if outcome.applied.Some? {
          BroadcastFromEffects(s, name, s.order, SyncUpdate(outcome.applied.value));
        } else {
          CascadeReflexive(s, name);
        }
        if |outcome.reply| > 0 {
          SendEffects(s1, name, conn, SyncReply(outcome.reply));
          CascadeTransitive(s, s1, r, name, {}, {conn});
          CascadeIsBookkept(s, r, name, {} + {conn});
        } else {
          CascadeIsBookkept(s, r, name, {});
        }
      case Awareness(applied) =>
        var s1 := s.(awareness := applied.states);
        QuietStepIsBookkept(s, s1, name);
        if !IsEmpty(applied.change) {
          var t := Tracked(s1, applied.change, Some(conn));
          QuietStepIsBookkept(s1, t, name);
          AwarenessChangeHandlerEffects(s1, name, applied.change, Some(conn));
          CascadeIsBookkept(t, r, name, {});
          BookkeptTransitive(s, s1, t, name, {}, {});
          BookkeptTransitive(s, t, r, name, {}, {});
        }
      case _ =>
        QuietStepIsBookkept(s, s, name);
    }
  }

  lemma SentSinceGrows(p: Peer, q: Peer, q2: Peer, m: Frame)
    requires SentSince(p, q, m) && q.outbox <= q2.outbox
    ensures SentSince(p, q2, m)
  {
    assert q.outbox[|p.outbox|..] <= q2.outbox[|p.outbox|..];
  }

  /** A sync message: the update it applied reaches every connection whose
      socket accepts writes, the sender included, and a non-empty reply
      then reaches the sender, last; a message that neither applied nor
      answered anything changes nothing. */
  lemma SyncMessageEffect(s: Session, name: string, conn: ConnId, outcome: SyncOutcome)
    requires Wired(s) && conn in s.net
    ensures var r := ListenerEffect(s, name, conn, Sync(outcome));
      && (outcome.applied.Some? ==> forall x :: Healthy(s, x) ==>
            Healthy(r, x) && SentSince(s.net[x], r.net[x], SyncUpdate(outcome.applied.value)))
      && (|outcome.reply| > 0 && Healthy(s, conn) ==>
            Healthy(r, conn) && r.net[conn].outbox[|r.net[conn].outbox| - 1] == SyncReply(outcome.reply))
      && (outcome.applied.None? && |outcome.reply| == 0 ==> r == s)
  {
    var r := ListenerEffect(s, name, conn, Sync(outcome));
    var s1 := if outcome.applied.Some? then Broadcast(s, name, SyncUpdate(outcome.applied.value)) else s;
    if outcome.applied.Some? {
      BroadcastReachesWritableConnections(s, name, SyncUpdate(outcome.applied.value));
    }
    assert forall x :: Healthy(s, x) ==> Healthy(s1, x);
    if |outcome.reply| > 0 {
      var m := SyncReply(outcome.reply);
      SendEffects(s1, name, conn, m);
      if outcome.applied.Some? {
        forall x | Healthy(s, x)
          ensures Healthy(r, x) && SentSince(s.net[x], r.net[x], SyncUpdate(outcome.applied.value))
        {
          assert Later(s1.net[x], r.net[x]);
          SentSinceGrows(s.net[x], s1.net[x], r.net[x], SyncUpdate(outcome.applied.value));
        }
      }
      if Healthy(s, conn) {
        SendWritable(s1, name, conn, m);
      }
    }
  }

  /** An awareness message replaces the states; when its `update` event
      fires, the clients it added and removed are credited to the sender,
      every other connection keeps its clients, and every connection whose
      socket accepts writes receives the new states of the changed clients. */
  lemma AwarenessMessageEffect(s: Session, name: string, conn: ConnId, applied: AwarenessApplied)
    requires Wired(s) && conn in s.net
    ensures var r := ListenerEffect(s, name, conn, Awareness(applied));
      && (IsEmpty(applied.change) ==> r == s.(awareness := applied.states))
      && (forall id :: id in r.awareness ==> id in applied.states && r.awareness[id] == applied.states[id])
      && (forall x :: x in r.conns ==>
            r.conns[x] == if x == conn then s.conns[x] + applied.change.added - applied.change.removed else s.conns[x])
      && (!IsEmpty(applied.change) ==> forall x :: Healthy(s, x) ==>
            Healthy(r, x) && SentSince(s.net[x], r.net[x], AwarenessUpdate(applied.states, Changed(applied.change))))
  {
    var s1 := s.(awareness := applied.states);
    if !IsEmpty(applied.change) {
      AwarenessChangeHandlerEffect(s1, name, applied.change, Some(conn));
    }
  }

  /** A `WSSharedDoc`: the document content, its connections with the
      awareness clients each controls (`order` is the insertion order of the
      `conns` map), the awareness states, the number of `error` events it
      emitted, and whether `bindState` got as far as registering the
      listener that persists every update. */
  class SharedDoc {
    const name: string
    var gc: bool
    var content: YDoc
    var conns: map<ConnId, set<ClientId>>
    var order: seq<ConnId>
    var awareness: map<ClientId, Bytes>
    var errors: nat
    var persistent: bool

    /** `new WSSharedDoc(name)`: an empty document whose awareness has no
        state, the local one having been set to null. */
    constructor (name: string, gc: bool)
      ensures this.name == name && this.gc == gc && content == FreshDoc()
      ensures conns == map[] && order == [] && awareness == map[]
      ensures errors == 0 && !persistent
    {
      this.name := name;
      this.gc := gc;
      content := FreshDoc();
      conns := map[];
      order := [];
      awareness := map[];
      errors := 0;
      persistent := false;
    }
  }

  /** The module state of src/server.ts: the storage (`ydo`), the
      registry `docs`, and the server's end of every WebSocket.  The ghost
      fields record every document ever created and the document each
      connection was set up on. */
  class Server {
    const ydo: DurableStorage.YDurableStorage
    const codecs: Codecs
    const gcEnabled: bool
    var docs: map<string, SharedDoc>
    var net: map<ConnId, Peer>
    ghost var allDocs: set<SharedDoc>
    ghost var home: map<ConnId, SharedDoc>

    function Model(doc: SharedDoc): Session
      reads this, doc
    {
      Session(doc.conns, doc.order, doc.awareness, net, docs.Keys)
    }

    /** Between calls: each registered document is filed under its own name
        and has a connection; a document with a connection is the
        registered one for its name; every connection belongs to the
        document it was set up on and has not been closed by the server. */
    ghost predicate Valid()
      reads this, allDocs, ydo, ydo.db
    {
      ydo.Valid() && Filed() && Complete() && AllWired() && Homed()
    }

    /** Each registered document is filed under its own name and has a
        connection. */
    ghost predicate Filed()
      reads this, allDocs
    {
      forall n :: n in docs ==> docs[n] in allDocs && docs[n].name == n && docs[n].conns != map[]
    }

    /** A document with a connection is the registered one for its name. */
    ghost predicate Complete()
      reads this, allDocs
    {
      forall d :: d in allDocs && d.conns != map[] ==> d.name in docs && docs[d.name] == d
    }

    ghost predicate AllWired()
      reads this, allDocs
    {
      forall d :: d in allDocs ==> Wired(Model(d))
    }

    /** Every connection belongs to the document it was set up on and has
        not been closed by the server. */
    ghost predicate Homed()
      reads this, allDocs
    {
      && (forall c :: c in home ==> home[c] in allDocs && c in net)
      && (forall d, c :: d in allDocs && c in d.conns ==> c in home && home[c] == d && net[c].closeCalls == 0)
    }

    /** The registry only loses entries. */
    twostate predicate RegistryKept()
      reads this
    {
      forall n :: n in docs ==> n in old(docs) && docs[n] == old(docs)[n]
    }

    /** How `messageListener` reads `message` on `doc` as it stands. */
    function Received(doc: SharedDoc, message: Bytes): Decoded
      reads doc
    {
      Decode(codecs, doc.content, doc.awareness, message)
    }

    /** A bookkeeping step on the document `conn` was set up on, by a
        handler of that connection: it leaves every other document and the
        ghost bookkeeping alone and may close, besides the document's
        connections, only the socket of `conn`. */
    twostate predicate OnlyTouches(conn: ConnId)
      reads this, allDocs
    {
      && conn in old(home) && old(home[conn]) in old(allDocs)
      && allDocs == old(allDocs) && home == old(home)
      && RegistryKept()
      && var doc := home[conn];
         && (forall d :: d in old(allDocs) && d != doc ==> d.conns == old(d.conns) && d.order == old(d.order))
         && Bookkept(old(Model(doc)), Model(doc), doc.name, {conn})
    }

    twostate lemma FiledKept(conn: ConnId)
      requires old(Filed()) && old(Complete()) && OnlyTouches(conn)
      ensures Filed()
    {
      var doc := home[conn];
      var s, r := old(Model(doc)), Model(doc);
      forall n | n in docs
        ensures docs[n] in allDocs && docs[n].name == n && docs[n].conns != map[]
      {
        assert docs[n] == old(docs[n]);
        if docs[n] == doc {
          assert r.names != s.names || s.conns == map[] || r.conns != map[];
        }
      }
    }

    twostate lemma CompleteKept(conn: ConnId)
      requires old(Filed()) && old(Complete()) && OnlyTouches(conn)
      ensures Complete()
    {
      var doc := home[conn];
      var s := old(Model(doc));
      if s.conns != map[] {
        assert doc.name in old(docs) && old(docs[doc.name]) == doc;
      }
      forall d | d in allDocs && d.conns != map[]
        ensures d.name in docs && docs[d.name] == d
      {
        if d != doc {
          assert old(d.conns) != map[];
          assert old(docs[d.name]) == d;
          if docs.Keys != old(docs.Keys) {
            assert s.conns != map[] && d.name != doc.name;
          }
        }
      }
    }

    twostate lemma AllWiredKept(conn: ConnId)
      requires old(AllWired()) && OnlyTouches(conn)
      ensures AllWired()
    {
      var doc := home[conn];
      forall d | d in allDocs
        ensures Wired(Model(d))
      {
        if d != doc {
          assert Wired(old(Model(d)));
        }
      }
    }

    twostate lemma HomedKept(conn: ConnId)
      requires old(Homed()) && OnlyTouches(conn)
      ensures Homed()
    {
      var doc := home[conn];
      var s := old(Model(doc));
      forall d, c | d in allDocs && c in d.conns
        ensures c in home && home[c] == d && net[c].closeCalls == 0
      {
        if d != doc {
          assert c in old(d.conns) && old(home[c]) == d;
          assert c !in s.conns && c != conn;
        }
      }
    }

    /** The registry invariant survives any bookkeeping step a handler of
        one connection takes. */
    twostate lemma BookkeepingKeepsValid(conn: ConnId)
      requires old(Valid()) && OnlyTouches(conn) && ydo.Valid()
      ensures Valid()
    {
      FiledKept(conn);
      CompleteKept(conn);
      AllWiredKept(conn);
      HomedKept(conn);
    }

    /** `Filed`, except perhaps for the document filed under `name`. */
    ghost predicate FiledBut(name: string)
      reads this, allDocs
    {
      forall n :: n in docs && n != name ==> docs[n] in allDocs && docs[n].name == n && docs[n].conns != map[]
    }

    /** Just after `getYDoc`: `doc` is filed under its name, the registry
        invariant holds but for it, and a document that was only just
        created has no connection yet. */
    ghost predicate Admits(doc: SharedDoc)
      reads this, allDocs, doc
    {
      && doc.name in docs && docs[doc.name] == doc
      && (doc !in allDocs ==> doc.conns == map[] && doc.order == [])
      && FiledBut(doc.name) && Complete() && AllWired() && Homed()
    }

    /** What registering `conn` on the document just fetched does to the
        bookkeeping: the socket is added and the document gets the
        connection, with no client, last. */
    twostate predicate Registers(conn: ConnId)
      reads this, allDocs
    {
      && conn !in old(net) && conn !in old(home) && conn in home && conn in net
      && home == old(home)[conn := home[conn]] && net == old(net)[conn := net[conn]]
      && net[conn].closeCalls == 0
      && docs == old(docs)
      && var doc := home[conn];
         && doc.name in docs && docs[doc.name] == doc
         && allDocs == old(allDocs) + {doc}
         && (doc in old(allDocs) ==>
               doc.conns == old(doc.conns)[conn := {}] && doc.order == old(doc.order) + [conn])
         && (doc !in old(allDocs) ==> doc.conns == map[conn := {}] && doc.order == [conn])
         && (forall d :: d in old(allDocs) && d != doc ==> d.conns == old(d.conns) && d.order == old(d.order))
    }

    twostate lemma RegistrationKeepsFiled(conn: ConnId)
      requires Registers(conn) && var name := home[conn].name; old(FiledBut(name))
      ensures Filed()
    {
      var doc := home[conn];
      forall n | n in docs
        ensures docs[n] in allDocs && docs[n].name == n && docs[n].conns != map[]
      {
        if n != doc.name {
          assert docs[n] == old(docs)[n] && docs[n].name == n && docs[n] != doc;
        } else {
          assert conn in doc.conns;
        }
      }
    }

    twostate lemma RegistrationKeepsComplete(conn: ConnId)
      requires old(Complete()) && Registers(conn)
      ensures Complete()
    {
      var doc := home[conn];
      forall d | d in allDocs && d.conns != map[]
        ensures d.name in docs && docs[d.name] == d
      {
        if d != doc {
          assert d in old(allDocs) && old(d.conns) != map[];
          assert old(docs[d.name]) == d;
        }
      }
    }

    twostate lemma RegistrationKeepsAllWired(conn: ConnId)
      requires old(AllWired()) && old(Homed()) && Registers(conn)
      ensures AllWired()
    {
      var doc := home[conn];
      forall d | d in allDocs
        ensures Wired(Model(d))
      {
        if d != doc {
          assert Wired(old(Model(d)));
        } else if d in old(allDocs) {
          var s := old(Model(d));
          assert Wired(s) && conn !in s.conns;
          assert forall x :: x in d.order <==> x in s.order || x == conn;
        }
      }
    }

    twostate lemma RegistrationKeepsHomed(conn: ConnId)
      requires old(Homed()) && Registers(conn)
      ensures Homed()
    {
      forall d, c | d in allDocs && c in d.conns
        ensures c in home && home[c] == d && net[c].closeCalls == 0
      {
        if c != conn {
          assert d in old(allDocs) && c in old(d.conns);
        }
      }
    }

    twostate lemma RegistrationKeepsValid(conn: ConnId)
      requires Registers(conn) && var name := home[conn].name; old(FiledBut(name))
      requires old(Complete()) && old(AllWired()) && old(Homed()) && ydo.Valid()
      ensures Valid()
    {
      RegistrationKeepsFiled(conn);
      RegistrationKeepsComplete(conn);
      RegistrationKeepsAllWired(conn);
      RegistrationKeepsHomed(conn);
    }

    constructor (ydo: DurableStorage.YDurableStorage, codecs: Codecs, gcEnabled: bool)
      requires ydo.Valid()
      ensures this.ydo == ydo && this.codecs == codecs && this.gcEnabled == gcEnabled
      ensures docs == map[] && net == map[]
      ensures Valid()
    {
      this.ydo := ydo;
      this.codecs := codecs;
      this.gcEnabled := gcEnabled;
      docs := map[];
      net := map[];
      allDocs := {};
      home := map[];
    }

    /** `closeConn(doc, conn)`. */
    method CloseConn(doc: SharedDoc, c: ConnId)
      requires Wired(Model(doc)) && c in net
      modifies this`net, this`docs, doc`conns, doc`order, doc`awareness
      ensures Model(doc) == Sessions.CloseConn(old(Model(doc)), doc.name, c)
      ensures RegistryKept()
      decreases |doc.conns.Keys|, 0
    {
      if c in doc.conns {
        ghost var s := Model(doc);
        var controlled := doc.conns[c];
        doc.conns := doc.conns - {c};
        doc.order := Without(doc.order, c);
        assert Model(doc) == Deregistered(s, c);
        RemoveAwarenessStates(doc, controlled);
        ghost var s1 := Model(doc);
        if doc.conns == map[] {
          ghost var before := docs;
          docs := docs - {doc.name};
          assert forall n :: n in docs ==> n in before && docs[n] == before[n];
        }
        assert Model(doc) == Released(s1, doc.name);
      }
      net := net[c := CloseCalled(net[c])];
    }

    /** `send(doc, conn, m)`. */
    method Send(doc: SharedDoc, c: ConnId, m: Frame)
      requires Wired(Model(doc)) && c in net
      modifies this`net, this`docs, doc`conns, doc`order, doc`awareness
      ensures Model(doc) == Sessions.Send(old(Model(doc)), doc.name, c, m)
      ensures RegistryKept()
      decreases |doc.conns.Keys|, 1
    {
      if net[c].ready != Connecting && net[c].ready != Open {
        CloseConn(doc, c);
      }
      if Writable(net[c]) {
        net := net[c := Delivered(net[c], m)];
      } else {
        SubsetCard(doc.conns.Keys, old(doc.conns.Keys));
        CloseConn(doc, c);
      }
    }

    /** `doc.conns.forEach((_, c) => send(doc, c, m))`: the connections
        are visited in insertion order, and one deleted before its turn is
        skipped. */
    method Broadcast(doc: SharedDoc, m: Frame)
      requires Wired(Model(doc))
      modifies this`net, this`docs, doc`conns, doc`order, doc`awareness
      ensures Model(doc) == Sessions.Broadcast(old(Model(doc)), doc.name, m)
      ensures RegistryKept()
      decreases |doc.conns.Keys|, 2
    {
      var pending := doc.order;
      while pending != []
        invariant Wired(Model(doc)) && doc.conns.Keys <= old(doc.conns.Keys)
        invariant BroadcastFrom(Model(doc), doc.name, pending, m) == Sessions.Broadcast(old(Model(doc)), doc.name, m)
        invariant RegistryKept()
        decreases |pending|
      {
        var c := pending[0];
        if c in doc.conns {
          SubsetCard(doc.conns.Keys, old(doc.conns.Keys));
          Send(doc, c, m);
        }
        pending := pending[1..];
      }
    }

    /** `updateHandler(update, origin, doc)`. */
    method UpdateHandler(doc: SharedDoc, update: Bytes)
      requires Wired(Model(doc))
      modifies this`net, this`docs, doc`conns, doc`order, doc`awareness
      ensures Model(doc) == Sessions.Broadcast(old(Model(doc)), doc.name, SyncUpdate(update))
      ensures RegistryKept()
      decreases |doc.conns.Keys|, 3
    {
      Broadcast(doc, SyncUpdate(update));
    }

    /** `awarenessChangeHandler({added, updated, removed}, origin)`. */
    method AwarenessChangeHandler(doc: SharedDoc, ch: AwarenessChange, origin: Option<ConnId>)
      requires Wired(Model(doc))
      modifies this`net, this`docs, doc`conns, doc`order, doc`awareness
      ensures Model(doc) == Sessions.AwarenessChangeHandler(old(Model(doc)), doc.name, ch, origin)
      ensures RegistryKept()
      decreases |doc.conns.Keys|, 3
    {
      if origin.Some? && origin.value in doc.conns {
        doc.conns := doc.conns[origin.value := doc.conns[origin.value] + ch.added - ch.removed];
      }
      assert Model(doc) == Tracked(old(Model(doc)), ch, origin);
      Broadcast(doc, AwarenessUpdate(doc.awareness, Changed(ch)));
    }

    /** `removeAwarenessStates(doc.awareness, clients, null)`, with the
        awareness handler as the `update` listener. */
    method RemoveAwarenessStates(doc: SharedDoc, clients: set<ClientId>)
      requires Wired(Model(doc))
      modifies this`net, this`docs, doc`conns, doc`order, doc`awareness
      ensures Model(doc) == Sessions.RemoveAwarenessStates(old(Model(doc)), doc.name, clients)
      ensures RegistryKept()
      decreases |doc.conns.Keys|, 4
    {
      var removed := clients * doc.awareness.Keys;
      if removed != {} {
        doc.awareness := map id | id in doc.awareness && id !in clients :: doc.awareness[id];
        AwarenessChangeHandler(doc, AwarenessChange({}, {}, removed), None);
      }
    }

    /** The sync branch of `messageListener` once `readSyncMessage` has
        run: an update it applied changes the document, whose `update`
        event runs `updateHandler` and then, on a persistent document, the
        listener that stores the update; a non-empty reply goes back to the
        sender. */
    method ApplySync(conn: ConnId, doc: SharedDoc, outcome: SyncOutcome)
      requires Wired(Model(doc)) && conn in net && ydo.Valid()
      modifies this`net, this`docs, doc`conns, doc`order, doc`awareness, doc`content, ydo, ydo.db
      ensures ydo.Valid() && RegistryKept()
      ensures Model(doc) == ListenerEffect(old(Model(doc)), doc.name, conn, Sync(outcome))
      ensures doc.content == if outcome.applied.Some? then ApplyUpdate(old(doc.content), outcome.applied.value) else old(doc.content)
      ensures var jobs := PersistJobs(doc.persistent, doc.name, Sync(outcome));
        && ydo.submitted == old(ydo.submitted) + jobs
        && ydo.db.Model() == if jobs == [] then old(ydo.db.Model())
                             else StoreUpdateStep(ydo.crdt, old(ydo.db.Model()), doc.name, jobs[0].update).db
    {
      if outcome.applied.Some? {
        var update := outcome.applied.value;
        doc.content := ApplyUpdate(doc.content, update);
        UpdateHandler(doc, update);
        if doc.persistent {
          var clock := ydo.StoreUpdate(doc.name, update);
        }
      }
      if |outcome.reply| > 0 {
        Send(doc, conn, SyncReply(outcome.reply));
      }
    }

    /** The awareness branch of `messageListener` once
        `applyAwarenessUpdate` has decoded the message: the states are
        replaced, and the `update` event runs the awareness handler with the
        sender as origin when some client was added, updated or removed. */
    method ApplyAwareness(conn: ConnId, doc: SharedDoc, applied: AwarenessApplied)
      requires Wired(Model(doc)) && conn in net
      modifies this`net, this`docs, doc`conns, doc`order, doc`awareness
      ensures RegistryKept()
      ensures Model(doc) == ListenerEffect(old(Model(doc)), doc.name, conn, Awareness(applied))
    {
      doc.awareness := applied.states;
      if !IsEmpty(applied.change) {
        AwarenessChangeHandler(doc, applied.change, Some(conn));
      }
    }

    /** `messageListener(conn, doc, message)`: a message that cannot be
        decoded makes the document emit `error`; a message of another type
        is ignored. */
    method MessageListener(conn: ConnId, doc: SharedDoc, message: Bytes)
      requires Wired(Model(doc)) && conn in net && ydo.Valid()
      modifies this`net, this`docs, doc`conns, doc`order, doc`awareness, doc`content, doc`errors, ydo, ydo.db
      ensures ydo.Valid() && RegistryKept()
      ensures Model(doc) == ListenerEffect(old(Model(doc)), doc.name, conn, old(Received(doc, message)))
      ensures doc.errors == old(doc.errors) + if old(Received(doc, message)).Malformed? then 1 else 0
      ensures var applied := AppliedUpdate(old(Received(doc, message)));
        doc.content == if applied.Some? then ApplyUpdate(old(doc.content), applied.value) else old(doc.content)
      ensures var jobs := PersistJobs(doc.persistent, doc.name, old(Received(doc, message)));
        && ydo.submitted == old(ydo.submitted) + jobs
        && ydo.db.Model() == if jobs == [] then old(ydo.db.Model())
                             else StoreUpdateStep(ydo.crdt, old(ydo.db.Model()), doc.name, jobs[0].update).db
    {
      var read := codecs.readMessageType(message);
      if read.None? {
        doc.errors := doc.errors + 1;
      } else if read.value.0 == MessageSync {
        var outcome := codecs.readSyncMessage(doc.content, read.value.1);
        if outcome.None? {
          doc.errors := doc.errors + 1;
        } else {
          ApplySync(conn, doc, outcome.value);
        }
      } else if read.value.0 == MessageAwareness {
        var result := codecs.applyAwarenessUpdate(doc.awareness, read.value.1);
        if result.None? {
          doc.errors := doc.errors + 1;
        } else {
          ApplyAwareness(conn, doc, result.value);
        }
      }
    }

    /** The `message` listener `setupWSConnection` registers: binary data
        goes to `messageListener`, text is only logged. */
    method OnMessage(conn: ConnId, doc: SharedDoc, event: Incoming)
      requires Valid() && conn in home && home[conn] == doc
      modifies this`net, this`docs, doc`conns, doc`order, doc`awareness, doc`content, doc`errors, ydo, ydo.db
      ensures Valid()
      ensures event.Text? ==> unchanged(this, doc, ydo, ydo.db)
      ensures event.Binary? ==>
        Model(doc) == ListenerEffect(old(Model(doc)), doc.name, conn, old(Received(doc, event.data)))
    {
      if event.Binary? {
        ghost var s := Model(doc);
        ghost var d := Received(doc, event.data);
        MessageListener(conn, doc, event.data);
        ListenerEffectBookkept(s, doc.name, conn, d);
        BookkeepingKeepsValid(conn);
      }
    }

    /** The `close` listener `setupWSConnection` registers. */
    method OnClose(conn: ConnId, doc: SharedDoc)
      requires Valid() && conn in home && home[conn] == doc
      modifies this`net, this`docs, doc`conns, doc`order, doc`awareness
      ensures Valid()
      ensures Model(doc) == Sessions.CloseConn(old(Model(doc)), doc.name, conn)
    {
      ghost var s := Model(doc);
      CloseConn(doc, conn);
      CloseConnBookkept(s, doc.name, conn);
      BookkeepingKeepsValid(conn);
    }

    /** `persistence.bindState(docName, doc)`, run to completion: load the
        stored document, store the new document's own state as an update,
        then apply the stored state and persist every later update.  When
        the stored log is too long to load, `getYDoc` resolves to null,
        encoding it throws, and the document is neither primed nor
        persisted. */
    method BindState(doc: SharedDoc)
      requires ydo.Valid()
      modifies doc`content, doc`persistent, ydo, ydo.db
      ensures ydo.Valid()
      ensures var seed := ydo.crdt.encodeStateAsUpdate(old(doc.content));
        && ydo.submitted == old(ydo.submitted) + [GetYDocJob(doc.name), StoreUpdateJob(doc.name, seed)]
        && ydo.db.Model() == StoreUpdateStep(ydo.crdt, GetYDocJobStep(ydo.crdt, old(ydo.db.Model()), doc.name).db, doc.name, seed).db
      ensures var log := Log(old(ydo.db.Model()).updates, doc.name);
        && doc.persistent == (|log| <= PreferredTrimSize || old(doc.persistent))
        && doc.content == if |log| <= PreferredTrimSize
                          then ApplyUpdate(old(doc.content), ydo.crdt.encodeStateAsUpdate(YDoc(log)))
                          else old(doc.content)
    {
      GetYDocOutcome(ydo.crdt, ydo.db.Model(), doc.name);
      var persisted := ydo.GetYDoc(doc.name);
      var newUpdates := ydo.crdt.encodeStateAsUpdate(doc.content);
      var clock := ydo.StoreUpdate(doc.name, newUpdates);
      if persisted.Some? {
        doc.content := ApplyUpdate(doc.content, ydo.crdt.encodeStateAsUpdate(persisted.value));
        doc.persistent := true;
      }
    }

    /** A document `getYDoc` just created for `docName` on a storage whose
        contents were `db`: empty but for the stored state it was primed
        with, and persistent exactly when that state could be loaded. */
    ghost predicate Created(doc: SharedDoc, docName: string, gc: bool, db: Db)
      reads doc
    {
      var log := Log(db.updates, docName);
      && doc.name == docName && doc.gc == gc
      && doc.conns == map[] && doc.order == [] && doc.awareness == map[] && doc.errors == 0
      && doc.persistent == (|log| <= PreferredTrimSize)
      && doc.content == if |log| <= PreferredTrimSize
                        then ApplyUpdate(FreshDoc(), ydo.crdt.encodeStateAsUpdate(YDoc(log)))
                        else FreshDoc()
    }

    /** The callback `getYDoc` hands to `setIfUndefined`, up to the
        registration. */
    method NewDoc(docName: string, gc: bool) returns (doc: SharedDoc)
      requires ydo.Valid()
      modifies ydo, ydo.db
      ensures ydo.Valid() && fresh(doc) && Created(doc, docName, gc, old(ydo.db.Model()))
      ensures ydo.submitted == old(ydo.submitted) + [GetYDocJob(docName), StoreUpdateJob(docName, ydo.crdt.encodeStateAsUpdate(FreshDoc()))]
    {
      doc := new SharedDoc(docName, gcEnabled);
      doc.gc := gc;
      BindState(doc);
    }

    /** `getYDoc(docname, gc)`: the registered document, or a new one bound
        to storage and then registered under the name. */
    method GetYDoc(docName: string, gc: bool) returns (doc: SharedDoc)
      requires Valid()
      modifies this`docs, ydo, ydo.db
      ensures ydo.Valid() && Admits(doc)
      ensures docName in old(docs) ==> doc == old(docs)[docName] && docs == old(docs) && unchanged(ydo, ydo.db)
      ensures docName !in old(docs) ==>
        && fresh(doc) && docs == old(docs)[docName := doc] && Created(doc, docName, gc, old(ydo.db.Model()))
        && ydo.submitted == old(ydo.submitted) + [GetYDocJob(docName), StoreUpdateJob(docName, ydo.crdt.encodeStateAsUpdate(FreshDoc()))]
    {
      if docName in docs {
        doc := docs[docName];
      } else {
        doc := NewDoc(docName, gc);
        docs := docs[docName := doc];
        forall d | d in allDocs
          ensures Wired(Model(d))
        {
          assert Wired(old(Model(d)));
        }
      }
    }

    /** The session a socket in state `peer` arrives at when it asks for
        `docName`: the registered document's, or a fresh document's with the
        name about to be filed. */
    ghost function Arrival(docName: string, conn: ConnId, peer: Peer): (r: Session)
      requires Filed() && AllWired() && Homed() && conn !in home
      reads this, allDocs
      ensures Wired(r) && conn in r.net && conn !in r.conns && r.net == net[conn := peer]
      ensures r.names == docs.Keys + {docName}
    {
      if docName in docs then
        var d := docs[docName];
        assert Wired(Model(d));
        Model(d).(net := net[conn := peer])
      else
        Session(map[], [], map[], net[conn := peer], docs.Keys + {docName})
    }

    /** `doc` is what `getYDoc(docName)` returned: the registered
        document, with storage untouched, or a new one, whose binding
        submitted the load of the name's log and the store of its first
        update. */
    twostate predicate Opened(docName: string, new doc: SharedDoc)
      reads this, ydo, ydo.db, doc
    {
      && doc.name == docName
      && (docName in old(docs) ==> doc == old(docs)[docName] && unchanged(ydo, ydo.db))
      && (docName !in old(docs) ==>
            && fresh(doc)
            && ydo.submitted == old(ydo.submitted) + [GetYDocJob(docName), StoreUpdateJob(docName, ydo.crdt.encodeStateAsUpdate(FreshDoc()))])
    }

    /** The first half of `setupWSConnection`: the socket's document is
        found or created, and the connection registered on it with no
        awareness client. */
    method Join(conn: ConnId, peer: Peer, docName: string, gc: bool) returns (doc: SharedDoc)
      requires Valid() && conn !in net && conn !in home && peer.closeCalls == 0
      modifies this, ydo, ydo.db, allDocs
      ensures Valid() && home == old(home)[conn := doc] && Opened(docName, doc)
      ensures Model(doc) == Registered(old(Arrival(docName, conn, peer)), conn)
    {
      doc := GetYDoc(docName, gc);
      ghost var arrival := Model(doc).(net := net[conn := peer]);
      assert arrival == old(Arrival(docName, conn, peer));
      Register(conn, peer, doc, arrival);
    }

    /** `doc.conns.set(conn, new Set())`, with the socket and the ghost
        bookkeeping of the connection. */
    method Register(conn: ConnId, peer: Peer, doc: SharedDoc, ghost arrival: Session)
      requires ydo.Valid() && Admits(doc) && conn !in net && conn !in home && peer.closeCalls == 0
      requires arrival == Model(doc).(net := net[conn := peer]) && Wired(arrival) && conn !in arrival.conns
      modifies this`net, this`allDocs, this`home, doc`conns, doc`order
      ensures Valid() && Model(doc) == Registered(arrival, conn)
      ensures home == old(home)[conn := doc]
    {
      Attach(conn, peer, doc, arrival);
      RegistrationKeepsValid(conn);
    }

    /** The assignments of `Register`. */
    method Attach(conn: ConnId, peer: Peer, doc: SharedDoc, ghost arrival: Session)
      requires arrival == Model(doc).(net := net[conn := peer]) && Wired(arrival) && conn !in arrival.conns
      modifies this`net, this`allDocs, this`home, doc`conns, doc`order
      ensures Model(doc) == Registered(arrival, conn)
      ensures net == old(net)[conn := peer] && home == old(home)[conn := doc] && allDocs == old(allDocs) + {doc}
      ensures doc.conns == old(doc.conns)[conn := {}] && doc.order == old(doc.order) + [conn]
    {
      net := net[conn := peer];
      allDocs := allDocs + {doc};
      home := home[conn := doc];
      doc.conns := doc.conns[conn := {}];
      doc.order := doc.order + [conn];
    }

    /** The closing block of `setupWSConnection`: sync step 1 with the
        document's state vector, then the awareness states when there are
        any. */
    method Greet(conn: ConnId, doc: SharedDoc)
      requires Wired(Model(doc)) && conn in net
      modifies this`net, this`docs, doc`conns, doc`order, doc`awareness
      ensures Model(doc) == Handshake(old(Model(doc)), doc.name, conn, ydo.crdt.encodeStateVector(doc.content))
      ensures RegistryKept()
    {
      var sv := ydo.crdt.encodeStateVector(doc.content);
      Send(doc, conn, SyncStep1(sv));
      if doc.awareness != map[] {
        Send(doc, conn, AwarenessUpdate(doc.awareness, doc.awareness.Keys));
      }
    }

    /** The handshake keeps the registry invariant. */
    method SendHandshake(conn: ConnId, doc: SharedDoc)
      requires Valid() && conn in home && home[conn] == doc
      modifies this`net, this`docs, doc`conns, doc`order, doc`awareness
      ensures Valid()
      ensures Model(doc) == Handshake(old(Model(doc)), doc.name, conn, ydo.crdt.encodeStateVector(doc.content))
    {
      ghost var s := Model(doc);
      Greet(conn, doc);
      HandshakeBookkept(s, doc.name, conn, ydo.crdt.encodeStateVector(doc.content));
      BookkeepingKeepsValid(conn);
    }

    /** `setupWSConnection(conn, req, {docName, gc})` for a socket handed
        over in state `peer`; its `message` and `close` listeners are
        `OnMessage` and `OnClose`.  `registered` is the session just before
        the handshake. */
    method SetupConnection(conn: ConnId, peer: Peer, docName: string, gc: bool)
      returns (doc: SharedDoc, ghost registered: Session)
      requires Valid() && conn !in net && conn !in home && peer.closeCalls == 0
      modifies this, ydo, ydo.db, allDocs
      ensures Valid() && home == old(home)[conn := doc] && doc.name == docName
      ensures registered == Registered(old(Arrival(docName, conn, peer)), conn)
      ensures Model(doc) == Handshake(registered, docName, conn, ydo.crdt.encodeStateVector(doc.content))
    {
      doc := Join(conn, peer, docName, gc);
      registered := Model(doc);
      SendHandshake(conn, doc);
    }
  }
}
