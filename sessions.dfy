/** The connection bookkeeping of the WebSocket server (src/server.ts),
    stated on values.  A `Session` is everything one shared document's
    `send`, `closeConn`, awareness handler and broadcasts can touch: the
    document's connections with the awareness clients each one controls, the
    awareness states, the server's end of every WebSocket, and the names in
    the server's document registry.  These functions are the specification
    the server's methods are proved against. */
module Sessions {
  import opened Wrappers
  import opened Yjs

  type ConnId = int
  type ClientId = int

  /** `wsReadyStateConnecting` (0) .. `wsReadyStateClosed` (3). */
  datatype ReadyState = Connecting | Open | Closing | Closed

  function Rank(r: ReadyState): (n: nat)
    ensures n <= 3
  {
    match r
    case Connecting => 0
    case Open => 1
    case Closing => 2
    case Closed => 3
  }

  /** What the server writes on a WebSocket, before lib0 framing: a sync
      step 1 carrying the document's state vector, an update, the reply
      `readSyncMessage` wrote, or an awareness update mapping each listed
      client to its state (None for a client whose state was removed). */
  datatype Frame =
    | SyncStep1(sv: Bytes)
    | SyncUpdate(update: Bytes)
    | SyncReply(body: Bytes)
    | AwarenessFrame(entries: map<ClientId, Option<Bytes>>)

  /** The server's end of one WebSocket.  `broken` stands for a transport
      that refuses writes whatever its ready state; `outbox` is every frame
      accepted by `conn.send`, and `closeCalls` counts calls to
      `conn.close()`. */
  datatype Peer = Peer(ready: ReadyState, broken: bool, outbox: seq<Frame>, closeCalls: nat)

  /** `conn.send` returns normally exactly on an open, unbroken socket and
      throws otherwise: a socket that is connecting, closing or closed is
      taken to throw, as the Workers runtime does after `close()`. */
  predicate Writable(p: Peer) {
    p.ready == Open && !p.broken
  }

  function Delivered(p: Peer, m: Frame): (q: Peer)
    ensures q.outbox == p.outbox + [m] && q.ready == p.ready && q.broken == p.broken
    ensures q.closeCalls == p.closeCalls
  {
    p.(outbox := p.outbox + [m])
  }

  /** `conn.close()`: an open or connecting socket starts closing, a closed
      one stays closed. */
  function CloseCalled(p: Peer): (q: Peer)
    ensures q.ready == Closing || q.ready == Closed
    ensures q.closeCalls == p.closeCalls + 1 && q.outbox == p.outbox && q.broken == p.broken
    ensures Rank(p.ready) <= Rank(q.ready)
  {
    p.(ready := if p.ready == Closed then Closed else Closing, closeCalls := p.closeCalls + 1)
  }

  /** The `{added, updated, removed}` argument of an awareness `update`
      event. */
  datatype AwarenessChange = AwarenessChange(added: set<ClientId>, updated: set<ClientId>, removed: set<ClientId>)

  /** `added.concat(updated, removed)`. */
  function Changed(ch: AwarenessChange): set<ClientId> {
    ch.added + ch.updated + ch.removed
  }

  predicate IsEmpty(ch: AwarenessChange) {
    Changed(ch) == {}
  }

  /** `encodeAwarenessUpdate(awareness, clients)`. */
  function AwarenessUpdate(states: map<ClientId, Bytes>, clients: set<ClientId>): (m: Frame)
    ensures m.AwarenessFrame? && m.entries.Keys == clients
    ensures forall id :: id in clients && id in states ==> m.entries[id] == Some(states[id])
    ensures forall id :: id in clients && id !in states ==> m.entries[id] == None
  {
    AwarenessFrame(map id | id in clients :: if id in states then Some(states[id]) else None)
  }

  datatype Session = Session(
    conns: map<ConnId, set<ClientId>>,
    order: seq<ConnId>,
    awareness: map<ClientId, Bytes>,
    net: map<ConnId, Peer>,
    names: set<string>)

  predicate NoDup(xs: seq<ConnId>) {
    forall i, j :: 0 <= i < j < |xs| ==> xs[i] != xs[j]
  }

  /** `order` is the insertion order of the `conns` map, which its
      `forEach` follows, and every registered connection has a socket. */
  ghost predicate Wired(s: Session) {
    && s.conns.Keys <= s.net.Keys
    && NoDup(s.order)
    && (forall c :: c in s.order <==> c in s.conns)
  }

  /** A registered connection whose socket accepts writes. */
  predicate Healthy(s: Session, c: ConnId) {
    c in s.conns && c in s.net && Writable(s.net[c])
  }

  /** The order of a map after `delete(c)`. */
  function Without(xs: seq<ConnId>, c: ConnId): (r: seq<ConnId>)
    ensures forall x :: x in r <==> x in xs && x != c
    ensures NoDup(xs) ==> NoDup(r)
  {
    if xs == [] then []
    else
      var rest := Without(xs[1..], c);
      assert forall x :: x in xs[1..] ==> x in xs;
      if xs[0] == c then rest
      else
        assert NoDup(xs) ==> xs[0] !in xs[1..];
        [xs[0]] + rest
  }

  /** A socket only ever gains frames and close calls, and never goes back
      to an earlier ready state. */
  predicate Later(p: Peer, q: Peer) {
    && p.outbox <= q.outbox
    && p.closeCalls <= q.closeCalls
    && Rank(p.ready) <= Rank(q.ready)
    && q.broken == p.broken
  }

  lemma SubsetCard(a: set<ConnId>, b: set<ConnId>)
    requires a <= b
    ensures |a| <= |b|
  {
    assert b == a + (b - a) && a * (b - a) == {};
  }

  // The elementary steps of the cascade

  /** `conns.delete(c)`. */
  function Deregistered(s: Session, c: ConnId): (r: Session)
    requires Wired(s) && c in s.conns
    ensures Wired(r) && r.conns.Keys == s.conns.Keys - {c} && |r.conns.Keys| < |s.conns.Keys|
    ensures r.net == s.net && r.awareness == s.awareness && r.names == s.names
    ensures forall x :: x in r.conns ==> r.conns[x] == s.conns[x]
  {
    var r := s.(conns := s.conns - {c}, order := Without(s.order, c));
    assert |r.conns.Keys| + 1 == |s.conns.Keys| by {
      assert s.conns.Keys == r.conns.Keys + {c};
    }
    r
  }

  /** `conn.close()` on the socket of `c`. */
  function SocketClosed(s: Session, c: ConnId): (r: Session)
    requires c in s.net
    ensures r.net.Keys == s.net.Keys && r.net[c] == CloseCalled(s.net[c])
  {
    s.(net := s.net[c := CloseCalled(s.net[c])])
  }

  /** `conn.send(m)` returning normally on the socket of `c`. */
  function Written(s: Session, c: ConnId, m: Frame): (r: Session)
    requires c in s.net
    ensures r.net.Keys == s.net.Keys && r.net[c] == Delivered(s.net[c], m)
  {
    s.(net := s.net[c := Delivered(s.net[c], m)])
  }

  /** `if (doc.conns.size === 0) docs.delete(doc.name)`. */
  function Released(s: Session, name: string): (r: Session)
    ensures r.names == if s.conns == map[] then s.names - {name} else s.names
  {
    if s.conns == map[] then s.(names := s.names - {name}) else s
  }

  /** The bookkeeping half of the awareness handler: when the change came
      from a registered connection, the clients it added join the set that
      connection controls and the clients it removed leave it. */
  function Tracked(s: Session, ch: AwarenessChange, origin: Option<ConnId>): (r: Session)
    ensures r.conns.Keys == s.conns.Keys
    ensures forall x :: x in s.conns ==>
      r.conns[x] == if origin == Some(x) then s.conns[x] + ch.added - ch.removed else s.conns[x]
  {
    if origin.Some? && origin.value in s.conns then
      s.(conns := s.conns[origin.value := s.conns[origin.value] + ch.added - ch.removed])
    else s
  }

  /** The deletions of `removeAwarenessStates`. */
  function StatesRemoved(s: Session, clients: set<ClientId>): (r: Session)
    ensures forall id :: id in r.awareness <==> id in s.awareness && id !in clients
  {
    s.(awareness := map id | id in s.awareness && id !in clients :: s.awareness[id])
  }

  /** What termination of the cascade rests on: no connection and no socket
      appears. */
  ghost predicate Shrinks(s: Session, r: Session) {
    Wired(r) && r.net.Keys == s.net.Keys && r.conns.Keys <= s.conns.Keys
  }

  // The cascade: send, closeConn, removeAwarenessStates, the awareness
  // handler and conns.forEach call one another; each call either removes a
  // connection first or moves to a lower rank.

  /** `closeConn(doc, conn)`: a registered connection is deregistered, the
      awareness states it controlled are removed (which notifies every
      remaining connection), the document leaves the registry if that was
      its last connection; then, registered or not, the socket is
      closed. */
  function CloseConn(s: Session, name: string, c: ConnId): (r: Session)
    requires Wired(s) && c in s.net
    ensures Shrinks(s, r)
    decreases |s.conns.Keys|, 0
  {
    if c in s.conns then
      var s1 := RemoveAwarenessStates(Deregistered(s, c), name, s.conns[c]);
      SocketClosed(Released(s1, name), c)
    else
      SocketClosed(s, c)
  }

  /** `send(doc, conn, m)`: a socket that is neither connecting nor open is
      closed first; then the frame is written, and a write that throws
      closes the connection. */
  function Send(s: Session, name: string, c: ConnId, m: Frame): (r: Session)
    requires Wired(s) && c in s.net
    ensures Shrinks(s, r)
    decreases |s.conns.Keys|, 1
  {
    var s1 := if s.net[c].ready != Connecting && s.net[c].ready != Open then CloseConn(s, name, c) else s;
    if Writable(s1.net[c]) then
      Written(s1, c, m)
    else
      SubsetCard(s1.conns.Keys, s.conns.Keys);
      CloseConn(s1, name, c)
  }

  /** `conns.forEach((_, c) => send(doc, c, m))` over the connections still
      to visit: one deregistered meanwhile is skipped. */
  function BroadcastFrom(s: Session, name: string, pending: seq<ConnId>, m: Frame): (r: Session)
    requires Wired(s)
    ensures Shrinks(s, r)
    decreases |s.conns.Keys|, 2, |pending|
  {
    if pending == [] then s
    else
      var s1 := if pending[0] in s.conns then Send(s, name, pending[0], m) else s;
      SubsetCard(s1.conns.Keys, s.conns.Keys);
      BroadcastFrom(s1, name, pending[1..], m)
  }

  /** The awareness `update` handler: after `Tracked`, the current states
      of every changed client go to every registered connection. */
  function AwarenessChangeHandler(s: Session, name: string, ch: AwarenessChange, origin: Option<ConnId>): (r: Session)
    requires Wired(s)
    ensures Shrinks(s, r)
    decreases |s.conns.Keys|, 3
  {
    var s1 := Tracked(s, ch, origin);
    BroadcastFrom(s1, name, s1.order, AwarenessUpdate(s1.awareness, Changed(ch)))
  }

  /** `removeAwarenessStates(awareness, clients, null)`: the states of the
      given clients are deleted, and only when one of them had a state is
      the `update` event fired, with the deleted ones as `removed` and no
      origin. */
  function RemoveAwarenessStates(s: Session, name: string, clients: set<ClientId>): (r: Session)
    requires Wired(s)
    ensures Shrinks(s, r)
    decreases |s.conns.Keys|, 4
  {
    var removed := clients * s.awareness.Keys;
    if removed == {} then s
    else AwarenessChangeHandler(StatesRemoved(s, clients), name, AwarenessChange({}, {}, removed), None)
  }

  /** Sending `m` to every registered connection in insertion order. */
  function Broadcast(s: Session, name: string, m: Frame): (r: Session)
    requires Wired(s)
    ensures Shrinks(s, r)
  {
    BroadcastFrom(s, name, s.order, m)
  }

  // What the cascade keeps

  /** Every step of the cascade keeps the bookkeeping wired, adds no
      connection and no awareness state, only moves sockets forward, only
      writes to a connection that stays registered, and takes `name` out of
      the registry exactly when the document loses its last connection. */
  ghost predicate Follows(s: Session, r: Session, name: string) {
    && Shrinks(s, r)
    && (forall x :: x in s.net ==> Later(s.net[x], r.net[x]))
    && (forall x :: x in r.conns && x in s.net ==> r.net[x] == s.net[x].(outbox := r.net[x].outbox))
    && (forall id :: id in r.awareness ==> id in s.awareness && r.awareness[id] == s.awareness[id])
    && (r.names != s.names ==> s.conns != map[] && r.conns == map[] && r.names == s.names - {name})
    && (s.conns != map[] && r.conns == map[] ==> name !in r.names)
  }

  /** No socket outside the registered connections and `closable` is
      touched. */
  ghost predicate OthersUntouched(s: Session, r: Session, closable: set<ConnId>) {
    forall x :: x in s.net && x !in s.conns && x !in closable ==> x in r.net && r.net[x] == s.net[x]
  }

  /** Registered connections whose sockets accept writes stay registered and
      writable, except those in `closable`. */
  ghost predicate HealthyKept(s: Session, r: Session, closable: set<ConnId>) {
    forall x :: Healthy(s, x) && x !in closable ==> Healthy(r, x)
  }

  /** The clients a connection controls are unchanged while it stays
      registered. */
  ghost predicate ControlKept(s: Session, r: Session) {
    forall x :: x in r.conns && x in s.conns ==> r.conns[x] == s.conns[x]
  }

  ghost predicate Cascade(s: Session, r: Session, name: string, closable: set<ConnId>) {
    && Follows(s, r, name)
    && OthersUntouched(s, r, closable)
    && HealthyKept(s, r, closable)
    && ControlKept(s, r)
  }

  lemma PrefixTransitive(a: seq<Frame>, b: seq<Frame>, c: seq<Frame>)
    requires a <= b && b <= c
    ensures a <= c
  {
    assert forall i :: 0 <= i < |a| ==> a[i] == b[i] == c[i];
  }

  lemma FollowsTransitive(s: Session, m: Session, r: Session, name: string)
    requires Follows(s, m, name) && Follows(m, r, name)
    ensures Follows(s, r, name)
  {
    forall x | x in s.net
      ensures Later(s.net[x], r.net[x])
    {
      PrefixTransitive(s.net[x].outbox, m.net[x].outbox, r.net[x].outbox);
    }
  }

  lemma CascadeTransitive(s: Session, m: Session, r: Session, name: string, a: set<ConnId>, b: set<ConnId>)
    requires Cascade(s, m, name, a) && Cascade(m, r, name, b)
    ensures Cascade(s, r, name, a + b)
  {
    FollowsTransitive(s, m, r, name);
  }

  lemma CascadeReflexive(s: Session, name: string)
    requires Wired(s)
    ensures Cascade(s, s, name, {})
  {
    forall x | x in s.net
      ensures Later(s.net[x], s.net[x])
    {
      assert s.net[x].outbox <= s.net[x].outbox;
    }
  }

  lemma WrittenCascade(s: Session, name: string, c: ConnId, m: Frame)
    requires Wired(s) && c in s.net
    ensures Cascade(s, Written(s, c, m), name, {c}) && HealthyKept(s, Written(s, c, m), {})
  {
    var r := Written(s, c, m);
    forall x | x in s.net
      ensures Later(s.net[x], r.net[x])
    {
      assert s.net[x].outbox <= r.net[x].outbox;
    }
  }

  lemma StatesRemovedCascade(s: Session, name: string, clients: set<ClientId>)
    requires Wired(s)
    ensures Cascade(s, StatesRemoved(s, clients), name, {})
  {
    var r := StatesRemoved(s, clients);
    forall x | x in s.net
      ensures Later(s.net[x], r.net[x])
    {
      assert s.net[x].outbox <= r.net[x].outbox;
    }
  }

  /** The end of `closeConn` on a registered connection: releasing the
      document and closing the socket. */
  lemma ReleaseAndCloseCascade(s: Session, s1: Session, name: string, c: ConnId)
    requires Wired(s) && c in s.conns
    requires Cascade(Deregistered(s, c), s1, name, {})
    ensures Cascade(s, SocketClosed(Released(s1, name), c), name, {c})
  {
    ReleaseAndCloseFollows(s, Deregistered(s, c), s1, name, c);
    ReleaseAndCloseKeeps(s, s1, name, c);
  }

  lemma ReleaseAndCloseFollows(s: Session, s0: Session, s1: Session, name: string, c: ConnId)
    requires Wired(s) && c in s.conns
    requires s0.net == s.net && s0.names == s.names && s0.awareness == s.awareness
    requires s0.conns.Keys == s.conns.Keys - {c}
    requires Follows(s0, s1, name)
    ensures Follows(s, SocketClosed(Released(s1, name), c), name)
  {
    var r := SocketClosed(Released(s1, name), c);
    assert r.conns == s1.conns && r.order == s1.order && r.net.Keys == s1.net.Keys;
    forall x | x in s.net
      ensures Later(s.net[x], r.net[x])
    {
      assert Later(s0.net[x], s1.net[x]);
    }
  }

  lemma ReleaseAndCloseKeeps(s: Session, s1: Session, name: string, c: ConnId)
    requires Wired(s) && c in s.conns
    requires var s0 := Deregistered(s, c);
      && Shrinks(s0, s1) && OthersUntouched(s0, s1, {}) && HealthyKept(s0, s1, {}) && ControlKept(s0, s1)
    ensures var r := SocketClosed(Released(s1, name), c);
      OthersUntouched(s, r, {c}) && HealthyKept(s, r, {c}) && ControlKept(s, r)
  {
    var s0 := Deregistered(s, c);
    var r := SocketClosed(Released(s1, name), c);
    forall x | Healthy(s, x) && x != c
      ensures Healthy(r, x)
    {
      assert Healthy(s0, x);
    }
  }

  lemma ClosedCascade(s: Session, name: string, c: ConnId)
    requires Wired(s) && c in s.net && c !in s.conns
    ensures Cascade(s, SocketClosed(s, c), name, {c})
  {
    var r := SocketClosed(s, c);
    forall x | x in s.net
      ensures Later(s.net[x], r.net[x])
    {
      assert s.net[x].outbox <= r.net[x].outbox;
    }
  }

  /** `closeConn` deregisters the connection, removes the awareness states
      it controlled and closes its socket exactly once; on a connection that
      is not registered it does nothing but close the socket. */
  lemma {:induction false} CloseConnEffects(s: Session, name: string, c: ConnId)
    requires Wired(s) && c in s.net
    ensures var r := CloseConn(s, name, c);
      && Cascade(s, r, name, {c})
      && c !in r.conns
      && r.net[c] == CloseCalled(s.net[c])
      && (c in s.conns ==> forall id :: id in s.conns[c] ==> id !in r.awareness)
      && (c !in s.conns ==> r == SocketClosed(s, c))
      && (c in s.conns && r.conns == map[] ==> name !in r.names)
      && (r.names != s.names ==> r.conns == map[] && r.names == s.names - {name})
    decreases |s.conns.Keys|, 0
  {
    if c in s.conns {
      var s0 := Deregistered(s, c);
      RemoveAwarenessStatesEffects(s0, name, s.conns[c]);
      var s1 := RemoveAwarenessStates(s0, name, s.conns[c]);
      ReleaseAndCloseCascade(s, s1, name, c);
      assert s1.net[c] == s.net[c];
    } else {
      ClosedCascade(s, name, c);
    }
  }

  /** What `send` does: the frame is appended to a writable socket and
      nothing else changes; a socket that is not writable is closed and its
      connection deregistered.  Only the target may be closed, and not even
      it when it was registered. */
  ghost predicate SendOutcome(s: Session, r: Session, name: string, c: ConnId, m: Frame)
    requires c in s.net
  {
    && Cascade(s, r, name, {c})
    && (c in s.conns ==> Cascade(s, r, name, {}))
    && (Writable(s.net[c]) ==> r == Written(s, c, m))
    && (!Writable(s.net[c]) ==> c !in r.conns && c in r.net && r.net[c].closeCalls > s.net[c].closeCalls)
  }

  lemma {:induction false} SendEffects(s: Session, name: string, c: ConnId, m: Frame)
    requires Wired(s) && c in s.net
    ensures SendOutcome(s, Send(s, name, c, m), name, c, m)
    decreases |s.conns.Keys|, 1, 1
  {
    if s.net[c].ready == Connecting || s.net[c].ready == Open {
      if Writable(s.net[c]) {
        SendOpen(s, name, c, m);
      } else {
        SendBroken(s, name, c, m);
      }
    } else {
      SendNotOpen(s, name, c, m);
    }
  }

  lemma SendOpen(s: Session, name: string, c: ConnId, m: Frame)
    requires Wired(s) && c in s.net && Writable(s.net[c])
    ensures SendOutcome(s, Send(s, name, c, m), name, c, m)
  {
    assert Send(s, name, c, m) == Written(s, c, m);
    WrittenCascade(s, name, c, m);
  }

  lemma {:induction false} SendBroken(s: Session, name: string, c: ConnId, m: Frame)
    requires Wired(s) && c in s.net && !Writable(s.net[c])
    requires s.net[c].ready == Connecting || s.net[c].ready == Open
    ensures SendOutcome(s, Send(s, name, c, m), name, c, m)
    decreases |s.conns.Keys|, 1, 0
  {
    var r := CloseConn(s, name, c);
    assert Send(s, name, c, m) == r;
    CloseConnEffects(s, name, c);
    UnhealthyNotClosable(s, r, name, c);
  }

  lemma {:induction false} SendNotOpen(s: Session, name: string, c: ConnId, m: Frame)
    requires Wired(s) && c in s.net
    requires s.net[c].ready != Connecting && s.net[c].ready != Open
    ensures SendOutcome(s, Send(s, name, c, m), name, c, m)
    decreases |s.conns.Keys|, 1, 0
  {
    var s1 := CloseConn(s, name, c);
    CloseConnEffects(s, name, c);
    var r := SocketClosed(s1, c);
    assert Send(s, name, c, m) == r;
    ClosedCascade(s1, name, c);
    CascadeTransitive(s, s1, r, name, {c}, {c});
    assert {c} + {c} == {c};
    UnhealthyNotClosable(s, r, name, c);
  }

  /** A registered connection that is not healthy need not be listed as
      closable. */
  lemma UnhealthyNotClosable(s: Session, r: Session, name: string, c: ConnId)
    requires Cascade(s, r, name, {c}) && !Healthy(s, c)
    ensures c in s.conns ==> Cascade(s, r, name, {})
  {
  }

  lemma {:induction false} BroadcastFromEffects(s: Session, name: string, pending: seq<ConnId>, m: Frame)
    requires Wired(s)
    ensures Cascade(s, BroadcastFrom(s, name, pending, m), name, {})
    decreases |s.conns.Keys|, 2, |pending|
  {
    if pending == [] {
      CascadeReflexive(s, name);
    } else {
      var s1 := if pending[0] in s.conns then Send(s, name, pending[0], m) else s;
      if pending[0] in s.conns {
        SendEffects(s, name, pending[0], m);
      } else {
        CascadeReflexive(s, name);
      }
      SubsetCard(s1.conns.Keys, s.conns.Keys);
      BroadcastFromEffects(s1, name, pending[1..], m);
      CascadeTransitive(s, s1, BroadcastFrom(s1, name, pending[1..], m), name, {}, {});
    }
  }

  lemma {:induction false} AwarenessChangeHandlerEffects(s: Session, name: string, ch: AwarenessChange, origin: Option<ConnId>)
    requires Wired(s)
    ensures Cascade(Tracked(s, ch, origin), AwarenessChangeHandler(s, name, ch, origin), name, {})
    decreases |s.conns.Keys|, 3
  {
    var s1 := Tracked(s, ch, origin);
    BroadcastFromEffects(s1, name, s1.order, AwarenessUpdate(s1.awareness, Changed(ch)));
  }

  lemma {:induction false} RemoveAwarenessStatesEffects(s: Session, name: string, clients: set<ClientId>)
    requires Wired(s)
    ensures var r := RemoveAwarenessStates(s, name, clients);
      Cascade(s, r, name, {}) && forall id :: id in clients ==> id !in r.awareness
    decreases |s.conns.Keys|, 4
  {
    var removed := clients * s.awareness.Keys;
    if removed == {} {
      CascadeReflexive(s, name);
      assert forall id :: id in clients && id in s.awareness ==> id in removed;
    } else {
      var s1 := StatesRemoved(s, clients);
      StatesRemovedCascade(s, name, clients);
      var ch := AwarenessChange({}, {}, removed);
      AwarenessChangeHandlerEffects(s1, name, ch, None);
      assert Tracked(s1, ch, None) == s1;
      CascadeTransitive(s, s1, AwarenessChangeHandler(s1, name, ch, None), name, {}, {});
    }
  }

  // What the server's registry invariant needs

  /** The part of `Follows` the registry invariant rests on; unlike
      `Follows` it also survives an awareness update, which adds states. */
  ghost predicate Bookkept(s: Session, r: Session, name: string, closable: set<ConnId>) {
    && Shrinks(s, r)
    && (forall x :: x in r.conns && x in s.net ==> r.net[x].closeCalls == s.net[x].closeCalls)
    && (r.names != s.names ==> s.conns != map[] && r.conns == map[] && r.names == s.names - {name})
    && (s.conns != map[] && r.conns == map[] ==> name !in r.names)
    && OthersUntouched(s, r, closable)
  }

  lemma CascadeIsBookkept(s: Session, r: Session, name: string, closable: set<ConnId>)
    requires Cascade(s, r, name, closable)
    ensures Bookkept(s, r, name, closable)
  {
    forall x | x in r.conns && x in s.net
      ensures r.net[x].closeCalls == s.net[x].closeCalls
    {
      assert r.net[x] == s.net[x].(outbox := r.net[x].outbox);
    }
  }

  lemma BookkeptTransitive(s: Session, m: Session, r: Session, name: string, a: set<ConnId>, b: set<ConnId>)
    requires Bookkept(s, m, name, a) && Bookkept(m, r, name, b)
    ensures Bookkept(s, r, name, a + b)
  {
  }

  /** A step that changes neither connections, sockets nor the registry. */
  lemma QuietStepIsBookkept(s: Session, r: Session, name: string)
    requires Wired(s) && r.conns.Keys == s.conns.Keys && r.order == s.order && r.net == s.net && r.names == s.names
    ensures Bookkept(s, r, name, {})
  {
  }

  lemma CloseConnBookkept(s: Session, name: string, c: ConnId)
    requires Wired(s) && c in s.net
    ensures Bookkept(s, CloseConn(s, name, c), name, {c})
  {
    CloseConnEffects(s, name, c);
    CascadeIsBookkept(s, CloseConn(s, name, c), name, {c});
  }

  // What a broadcast delivers

  lemma InLaterSuffix(xs: seq<Frame>, i: nat, j: nat, m: Frame)
    requires i <= j <= |xs| && m in xs[j..]
    ensures m in xs[i..]
  {
    var k :| 0 <= k < |xs[j..]| && xs[j..][k] == m;
    assert xs[i..][k + j - i] == m;
  }

  /** `m` was written to the socket between states `p` and `q`. */
  predicate SentSince(p: Peer, q: Peer, m: Frame) {
    |p.outbox| <= |q.outbox| && m in q.outbox[|p.outbox|..]
  }

  /** Every connection still to visit that was registered and writable
      stays so and receives `m`, whatever the cascade closed meanwhile. */
  lemma {:induction false} BroadcastFromDelivers(s: Session, name: string, pending: seq<ConnId>, m: Frame)
    requires Wired(s)
    ensures var r := BroadcastFrom(s, name, pending, m);
      forall x :: x in pending && Healthy(s, x) ==> Healthy(r, x) && SentSince(s.net[x], r.net[x], m)
    decreases |pending|
  {
    if pending != [] {
      var p := pending[0];
      var s1 := if p in s.conns then Send(s, name, p, m) else s;
      if p in s.conns {
        SendEffects(s, name, p, m);
      } else {
        CascadeReflexive(s, name);
      }
      var r := BroadcastFrom(s1, name, pending[1..], m);
      BroadcastFromDelivers(s1, name, pending[1..], m);
      BroadcastFromEffects(s1, name, pending[1..], m);
      forall x | x in pending && Healthy(s, x)
        ensures Healthy(r, x) && SentSince(s.net[x], r.net[x], m)
      {
        assert Healthy(s1, x);
        var before := s.net[x].outbox;
        if x == p {
          assert s1.net[x].outbox == before + [m];
          assert s1.net[x].outbox <= r.net[x].outbox;
          assert r.net[x].outbox[|before|] == m;
          assert r.net[x].outbox[|before|..][0] == m;
        } else {
          assert x in pending[1..];
          assert before <= s1.net[x].outbox;
          InLaterSuffix(r.net[x].outbox, |before|, |s1.net[x].outbox|, m);
        }
      }
    }
  }

  /** `broadcast` of `m`: every registered connection with a writable
      socket receives `m`. */
  lemma BroadcastReachesWritableConnections(s: Session, name: string, m: Frame)
    requires Wired(s)
    ensures var r := Broadcast(s, name, m);
      forall x :: Healthy(s, x) ==> Healthy(r, x) && SentSince(s.net[x], r.net[x], m)
  {
    BroadcastFromDelivers(s, name, s.order, m);
  }

  /** Every socket in `xs` with `m` appended. */
  function DeliveredTo(net: map<ConnId, Peer>, xs: set<ConnId>, m: Frame): (r: map<ConnId, Peer>)
    ensures r.Keys == net.Keys
  {
    map x | x in net :: if x in xs then Delivered(net[x], m) else net[x]
  }

  lemma TailFacts(xs: seq<ConnId>)
    requires xs != [] && NoDup(xs)
    ensures NoDup(xs[1..]) && xs[0] !in xs[1..]
    ensures (set x | x in xs) == (set x | x in xs[1..]) + {xs[0]}
  {
    forall i, j | 0 <= i < j < |xs[1..]|
      ensures xs[1..][i] != xs[1..][j]
    {
      assert xs[1..][i] == xs[i + 1] && xs[1..][j] == xs[j + 1];
    }
    forall k | 0 <= k < |xs[1..]|
      ensures xs[1..][k] != xs[0]
    {
      assert xs[1..][k] == xs[k + 1];
    }
    assert xs == [xs[0]] + xs[1..];
  }

  lemma SendWritable(s: Session, name: string, c: ConnId, m: Frame)
    requires Wired(s) && c in s.net && Writable(s.net[c])
    ensures Send(s, name, c, m) == Written(s, c, m)
  {
  }

  lemma DeliveredToStep(net: map<ConnId, Peer>, p: ConnId, rest: set<ConnId>, m: Frame)
    requires p in net && p !in rest
    ensures DeliveredTo(net[p := Delivered(net[p], m)], rest, m) == DeliveredTo(net, rest + {p}, m)
  {
  }

  /** When every registered socket accepts writes, broadcasting writes `m`
      once to each connection still to visit and changes nothing else. */
  lemma {:induction false} BroadcastFromWritable(s: Session, name: string, pending: seq<ConnId>, m: Frame)
    requires Wired(s) && forall x :: x in s.conns ==> Writable(s.net[x])
    requires NoDup(pending) && forall x :: x in pending ==> x in s.conns
    ensures BroadcastFrom(s, name, pending, m) == s.(net := DeliveredTo(s.net, (set x | x in pending), m))
    decreases |pending|
  {
    if pending == [] {
      assert DeliveredTo(s.net, (set x | x in pending), m) == s.net;
    } else {
      var p := pending[0];
      SendWritable(s, name, p, m);
      TailFacts(pending);
      var s1 := Written(s, p, m);
      BroadcastFromWritable(s1, name, pending[1..], m);
      DeliveredToStep(s.net, p, (set x | x in pending[1..]), m);
    }
  }

  /** `updateHandler` and the awareness broadcast, when every registered
      socket accepts writes: each registered connection receives `m`
      exactly once, and nothing else changes. */
  lemma BroadcastToWritableConnections(s: Session, name: string, m: Frame)
    requires Wired(s) && forall x :: x in s.conns ==> Writable(s.net[x])
    ensures Broadcast(s, name, m) == s.(net := DeliveredTo(s.net, s.conns.Keys, m))
  {
    BroadcastFromWritable(s, name, s.order, m);
    var listed := set x: ConnId | x in s.order;
    assert forall x :: x in listed <==> x in s.conns.Keys;
    assert listed == s.conns.Keys;
  }

  /** The awareness handler records the clients the origin connection added
      and removed, keeps every other connection's set, and sends the
      current states of the changed clients to every writable registered
      connection. */
  lemma AwarenessChangeHandlerEffect(s: Session, name: string, ch: AwarenessChange, origin: Option<ConnId>)
    requires Wired(s)
    ensures var r := AwarenessChangeHandler(s, name, ch, origin);
      && Follows(s, r, name)
      && (forall x :: x in r.conns ==>
            r.conns[x] == if origin == Some(x) then s.conns[x] + ch.added - ch.removed else s.conns[x])
      && (forall x :: Healthy(s, x) ==>
            Healthy(r, x) && SentSince(s.net[x], r.net[x], AwarenessUpdate(s.awareness, Changed(ch))))
  {
    var s1 := Tracked(s, ch, origin);
    var r := AwarenessChangeHandler(s, name, ch, origin);
    AwarenessChangeHandlerEffects(s, name, ch, origin);
    BroadcastFromDelivers(s1, name, s1.order, AwarenessUpdate(s1.awareness, Changed(ch)));
    assert forall x :: Healthy(s, x) ==> Healthy(s1, x);
    forall x | x in s.net
      ensures Later(s.net[x], r.net[x])
    {
      assert Later(s1.net[x], r.net[x]);
    }
  }

  // setupWSConnection

  /** `doc.conns.set(conn, new Set())`. */
  function Registered(s: Session, c: ConnId): (r: Session)
    requires Wired(s) && c in s.net
    ensures Wired(r) && r.conns.Keys == s.conns.Keys + {c} && r.conns[c] == {}
    ensures r.net == s.net && r.awareness == s.awareness && r.names == s.names
  {
    if c in s.conns then
      s.(conns := s.conns[c := {}])
    else
      var r := s.(conns := s.conns[c := {}], order := s.order + [c]);
      assert forall x :: x in r.order <==> x in s.order || x == c;
      r
  }

  /** The closing block of `setupWSConnection`: sync step 1 carrying the
      state vector, then, when some client has an awareness state, an
      awareness update carrying every state. */
  function Handshake(s: Session, name: string, c: ConnId, sv: Bytes): (r: Session)
    requires Wired(s) && c in s.net
    ensures Shrinks(s, r)
  {
    var s1 := Send(s, name, c, SyncStep1(sv));
    if s1.awareness != map[] then Send(s1, name, c, AwarenessUpdate(s1.awareness, s1.awareness.Keys)) else s1
  }

  /** A new connection whose socket accepts writes receives sync step 1
      and then, only when some client has an awareness state, the awareness
      update, and nothing else happens; a connection whose socket does not
      is closed. */
  lemma HandshakeOrder(s: Session, name: string, c: ConnId, sv: Bytes)
    requires Wired(s) && c in s.net
    ensures var r := Handshake(s, name, c, sv);
      && Cascade(s, r, name, {c})
      && (Writable(s.net[c]) ==>
            r == s.(net := s.net[c := s.net[c].(outbox := s.net[c].outbox + [SyncStep1(sv)] +
                   (if s.awareness != map[] then [AwarenessUpdate(s.awareness, s.awareness.Keys)] else []))]))
      && (!Writable(s.net[c]) ==> c !in r.conns && r.net[c].closeCalls > s.net[c].closeCalls)
  {
    var s1 := Send(s, name, c, SyncStep1(sv));
    SendEffects(s, name, c, SyncStep1(sv));
    if Writable(s.net[c]) {
      assert s1.awareness == s.awareness && s1.net[c].outbox == s.net[c].outbox + [SyncStep1(sv)];
      if s1.awareness != map[] {
        var m := AwarenessUpdate(s1.awareness, s1.awareness.Keys);
        SendEffects(s1, name, c, m);
        assert s1.net[c := Delivered(s1.net[c], m)] == s.net[c := s.net[c].(outbox := s.net[c].outbox + [SyncStep1(sv)] + [m])];
      } else {
        assert s.net[c].outbox + [SyncStep1(sv)] + [] == s.net[c].outbox + [SyncStep1(sv)];
      }
    }
    if s1.awareness != map[] {
      var m := AwarenessUpdate(s1.awareness, s1.awareness.Keys);
      SendEffects(s1, name, c, m);
      CascadeTransitive(s, s1, Send(s1, name, c, m), name, {c}, {c});
      assert {c} + {c} == {c};
      if !Writable(s.net[c]) {
        assert Later(s1.net[c], Send(s1, name, c, m).net[c]);
      }
    }
  }

  lemma HandshakeBookkept(s: Session, name: string, c: ConnId, sv: Bytes)
    requires Wired(s) && c in s.net
    ensures Bookkept(s, Handshake(s, name, c, sv), name, {c})
  {
    HandshakeOrder(s, name, c, sv);
    CascadeIsBookkept(s, Handshake(s, name, c, sv), name, {c});
  }
}
