/** The session registry of src/flutter.rs: peer sessions by peer and connection type, each with
    the UI sessions that show it.  Each function is one atomic step. */
module SessionRegistry {
  import opened Common

  datatype ConnType = DefaultConn | FileTransfer | ViewCamera | Terminal | PortForward | Rdp

  datatype PeerKey = PeerKey(peerId: string, connType: ConnType)

  datatype SessionId = SessionId(uuid: int)

  datatype Handler = Handler(displays: seq<nat>)

  type Handlers = map<SessionId, Handler>

  /** A registered peer session, by its UI sessions. */
  type Sessions = map<PeerKey, Handlers>

  // ---------------------------------------------------------------- the operations

  function Inserted(s: Sessions, key: PeerKey, id: SessionId): Sessions {
    s[key := (if key in s then s[key] else map[])[id := Handler([])]]
  }

  function Attached(s: Sessions, key: PeerKey, id: SessionId, displays: seq<nat>): Sessions {
    if key in s then s[key := s[key][id := Handler(displays)]] else s
  }

  /** Removing `id` from the entry in which it was found. */
  function RemovedFrom(s: Sessions, key: PeerKey, id: SessionId): Sessions
    requires key in s
  {
    var rest := s[key] - {id};
    if rest == map[] then s - {key} else s[key := rest]
  }

  predicate Shows(s: Sessions, key: PeerKey, id: SessionId) { key in s && id in s[key] }

  /** The handler of a UI session that a peer session shows. */
  function HandlerOf(s: Sessions, key: PeerKey, id: SessionId): Option<Handler> {
    if key in s && id in s[key] then Some(s[key][id]) else None
  }

  /** Handlers are stored and dropped one at a time: an insert stores one without displays, an
      attach the displays it was given, a removal drops one, and every other handler stays. */
  lemma HandlersMeaning(s: Sessions, key: PeerKey, id: SessionId, displays: seq<nat>, k: PeerKey, i: SessionId)
    ensures HandlerOf(Inserted(s, key, id), k, i) ==
            if k == key && i == id then Some(Handler([])) else HandlerOf(s, k, i)
    ensures HandlerOf(Attached(s, key, id, displays), k, i) ==
            if key in s && k == key && i == id then Some(Handler(displays)) else HandlerOf(s, k, i)
    ensures key in s ==> HandlerOf(RemovedFrom(s, key, id), k, i) ==
                         if k == key && i == id then None else HandlerOf(s, k, i)
  {
    if key in s {
      assert i in s[key] - {id} <==> i in s[key] && i != id;
    }
  }

  // ---------------------------------------------------------------- what it stands for

  /** The registry is a map from UI sessions to the peer session each belongs to: exactly the
      peers that own a UI session are registered, and each lists exactly the ones it owns. */
  ghost predicate Owned(s: Sessions, owner: map<SessionId, PeerKey>) {
    && (forall key, id :: Shows(s, key, id) <==> id in owner && owner[id] == key)
    && (forall key :: key in s ==> exists id :: Shows(s, key, id))
  }

  ghost predicate Consistent(s: Sessions) {
    exists owner :: Owned(s, owner)
  }

  lemma OwnerUnique(s: Sessions, o1: map<SessionId, PeerKey>, o2: map<SessionId, PeerKey>)
    requires Owned(s, o1) && Owned(s, o2)
    ensures o1 == o2
  {
    forall id
      ensures id in o1 <==> id in o2
      ensures id in o1 ==> o1[id] == o2[id]
    {
      if id in o1 { assert Shows(s, o1[id], id); }
      if id in o2 { assert Shows(s, o2[id], id); }
    }
  }

  /** Consistency in plain words: no UI session belongs to two peer sessions, and no peer session
      is registered without a UI session. */
  lemma ConsistentMeans(s: Sessions)
    requires Consistent(s)
    ensures forall k1, k2, id :: Shows(s, k1, id) && Shows(s, k2, id) ==> k1 == k2
    ensures forall key :: key in s ==> s[key] != map[]
  {
    var owner :| Owned(s, owner);
    forall key | key in s
      ensures s[key] != map[]
    {
      var id :| Shows(s, key, id);
      assert id in s[key];
    }
  }

  lemma InsertOwned(s: Sessions, owner: map<SessionId, PeerKey>, key: PeerKey, id: SessionId)
    requires Owned(s, owner) && id !in owner
    ensures Owned(Inserted(s, key, id), owner[id := key])
  {
    var t := Inserted(s, key, id);
    assert Shows(t, key, id);
    forall k, i
      ensures Shows(t, k, i) <==> i in owner[id := key] && owner[id := key][i] == k
    {
      assert Shows(s, k, i) <==> i in owner && owner[i] == k;
      if i == id { assert !Shows(s, k, id); }
    }
    forall k | k in t
      ensures exists i :: Shows(t, k, i)
    {
      if k != key {
        var i :| Shows(s, k, i);
        assert Shows(t, k, i);
      }
    }
  }

  lemma AttachOwned(s: Sessions, owner: map<SessionId, PeerKey>, key: PeerKey, id: SessionId, displays: seq<nat>)
    requires Owned(s, owner) && key in s && (id in owner ==> owner[id] == key)
    ensures Owned(Attached(s, key, id, displays), owner[id := key])
  {
    var t := Attached(s, key, id, displays);
    assert Shows(t, key, id);
    forall k, i
      ensures Shows(t, k, i) <==> i in owner[id := key] && owner[id := key][i] == k
    {
      assert Shows(s, k, i) <==> i in owner && owner[i] == k;
    }
    forall k | k in t
      ensures exists i :: Shows(t, k, i)
    {
      var i :| Shows(s, k, i);
      assert Shows(t, k, i);
    }
  }

  /** Attaching keeps the registry consistent exactly when the UI session does not already belong
      to another peer session. */
  lemma AttachExactly(s: Sessions, owner: map<SessionId, PeerKey>, key: PeerKey, id: SessionId, displays: seq<nat>)
    requires Owned(s, owner)
    ensures Consistent(Attached(s, key, id, displays)) <==> !(key in s && id in owner && owner[id] != key)
  {
    var t := Attached(s, key, id, displays);
    if key !in s {
      assert Owned(t, owner);
    } else if id in owner && owner[id] != key {
      assert Shows(s, owner[id], id);
      assert Shows(t, owner[id], id) && Shows(t, key, id);
      if Consistent(t) { ConsistentMeans(t); }
    } else {
      AttachOwned(s, owner, key, id, displays);
    }
  }

  /** Removing forgets one UI session, and the peer session with its last one. */
  lemma RemoveOwned(s: Sessions, owner: map<SessionId, PeerKey>, key: PeerKey, id: SessionId)
    requires Owned(s, owner) && Shows(s, key, id)
    ensures Owned(RemovedFrom(s, key, id), owner - {id})
    ensures key in RemovedFrom(s, key, id) <==> exists other :: other != id && other in owner && owner[other] == key
  {
    var t := RemovedFrom(s, key, id);
    var rest := s[key] - {id};
    forall k, i
      ensures Shows(t, k, i) <==> i in owner - {id} && (owner - {id})[i] == k
    {
      assert Shows(s, k, i) <==> i in owner && owner[i] == k;
      assert i in rest <==> Shows(s, key, i) && i != id;
    }
    forall k | k in t
      ensures exists i :: Shows(t, k, i)
    {
      if k == key {
        var i :| i in rest;
        assert Shows(t, k, i);
      } else {
        var i :| Shows(s, k, i);
        assert Shows(t, k, i);
      }
    }
    if other :| other != id && other in owner && owner[other] == key {
      assert Shows(s, key, other) && other in rest;
    }
    if key in t {
      var other :| Shows(t, key, other);
      assert other in owner - {id} && (owner - {id})[other] == key;
    }
  }

  // ---------------------------------------------------------------- runs

  datatype Event =
    | Add(key: PeerKey, id: SessionId)
    | Attach(key: PeerKey, id: SessionId, displays: seq<nat>)
    | Remove(id: SessionId)

  ghost predicate Known(s: Sessions, id: SessionId) {
    exists key :: Shows(s, key, id)
  }

  /** An entry that shows a known UI session. */
  ghost function Found(s: Sessions, id: SessionId): (key: PeerKey)
    requires Known(s, id)
    ensures Shows(s, key, id)
  {
    var key :| Shows(s, key, id);
    key
  }

  ghost function Step(s: Sessions, e: Event): Sessions {
    match e
    case Add(key, id) => if Known(s, id) then s else Inserted(s, key, id)
    case Attach(key, id, displays) => Attached(s, key, id, displays)
    case Remove(id) => if Known(s, id) then RemovedFrom(s, Found(s, id), id) else s
  }

  ghost function Run(events: seq<Event>): Sessions {
    if events == [] then map[] else Step(Run(events[..|events| - 1]), events[|events| - 1])
  }

  /** An attach to a registered peer session does not take a UI session from another one. */
  ghost predicate Fresh(s: Sessions, e: Event) {
    e.Attach? && e.key in s ==> forall key :: Shows(s, key, e.id) ==> key == e.key
  }

  ghost predicate AllFresh(events: seq<Event>) {
    events != [] ==>
      var before := events[..|events| - 1];
      AllFresh(before) && Fresh(Run(before), events[|events| - 1])
  }

  ghost predicate AllConsistent(events: seq<Event>) {
    Consistent(Run(events)) && (events != [] ==> AllConsistent(events[..|events| - 1]))
  }

  lemma NotOwned(s: Sessions, owner: map<SessionId, PeerKey>, id: SessionId)
    requires Owned(s, owner)
    ensures Known(s, id) <==> id in owner
    ensures Known(s, id) ==> Found(s, id) == owner[id]
  {
    if id in owner { assert Shows(s, owner[id], id); }
  }

  /** One step keeps the registry consistent exactly if it is not an attach that takes a UI session
      from another peer session. */
  lemma StepExactly(s: Sessions, e: Event)
    requires Consistent(s)
    ensures Consistent(Step(s, e)) <==> Fresh(s, e)
  {
    var owner :| Owned(s, owner);
    NotOwned(s, owner, e.id);
    match e
    case Add(key, id) => if !Known(s, id) { InsertOwned(s, owner, key, id); }
    case Attach(key, id, displays) =>
      AttachExactly(s, owner, key, id, displays);
      assert id in owner ==> Shows(s, owner[id], id);
    case Remove(id) => if Known(s, id) { RemoveOwned(s, owner, Found(s, id), id); }
  }

  /** The registry is consistent throughout a run from empty exactly if every attach in it is fresh
      when it is made. */
  lemma {:induction false} RunExactly(events: seq<Event>)
    ensures AllConsistent(events) <==> AllFresh(events)
  {
    if events == [] {
      assert Owned(map[], map[]);
    } else {
      var before := events[..|events| - 1];
      RunExactly(before);
      if Consistent(Run(before)) { StepExactly(Run(before), events[|events| - 1]); }
      AllAtEnd(before);
    }
  }

  lemma {:induction false} AllAtEnd(events: seq<Event>)
    ensures AllConsistent(events) ==> Consistent(Run(events))
  {
  }

  lemma {:induction false} RunMore(events: seq<Event>, e: Event)
    ensures Run(events + [e]) == Step(Run(events), e)
    ensures AllFresh(events + [e]) <==> AllFresh(events) && Fresh(Run(events), e)
  {
    assert (events + [e])[..|events|] == events;
  }

  /** Runs in which only these UI sessions are ever attached to these peer sessions. */
  ghost predicate AttachesFrom(events: seq<Event>, attaches: iset<(PeerKey, SessionId)>) {
    forall i :: 0 <= i < |events| && events[i].Attach? ==> (events[i].key, events[i].id) in attaches
  }

  /** An attach that another peer session's add has made stale. */
  lemma StaleAttach(key: PeerKey, id: SessionId) returns (events: seq<Event>)
    ensures forall attaches :: (key, id) in attaches ==> AttachesFrom(events, attaches)
    ensures !AllFresh(events)
  {
    var other, second := PeerKey(key.peerId + "x", key.connType), SessionId(id.uuid + 1);
    assert |other.peerId| != |key.peerId|;
    var e1, e2, e3 := Add(other, id), Add(key, second), Attach(key, id, []);
    RunMore([], e1);
    RunMore([] + [e1], e2);
    RunMore([] + [e1] + [e2], e3);
    assert Run([] + [e1]) == map[other := map[id := Handler([])]];
    assert !Known(Run([] + [e1]), second);
    assert Shows(Run([] + [e1] + [e2]), other, id) && key in Run([] + [e1] + [e2]);
    events := [] + [e1] + [e2] + [e3];
  }

  /** No set of attaches is safe beside arbitrary adds and removes, but the empty one: freshness has
      to be checked at the time. */
  lemma AttachesExactly(attaches: iset<(PeerKey, SessionId)>)
    ensures (forall events | AttachesFrom(events, attaches) :: AllConsistent(events)) <==> attaches == iset{}
  {
    if pair :| pair in attaches {
      var events := StaleAttach(pair.0, pair.1);
      RunExactly(events);
      assert AttachesFrom(events, attaches);
    } else {
      forall events | AttachesFrom(events, attaches)
        ensures AllConsistent(events)
      {
        NoAttaches(events, attaches);
        RunExactly(events);
      }
    }
  }

  lemma {:induction false} NoAttaches(events: seq<Event>, attaches: iset<(PeerKey, SessionId)>)
    requires AttachesFrom(events, attaches) && attaches == iset{}
    ensures AllFresh(events)
  {
    if events != [] { NoAttaches(events[..|events| - 1], attaches); }
  }

  // ---------------------------------------------------------------- the registry

  class Registry {
    var sessions: Sessions
    ghost var owner: map<SessionId, PeerKey>

    ghost predicate Valid()
      reads this
    {
      Owned(sessions, owner)
    }

    constructor ()
      ensures Valid() && owner == map[]
    {
      sessions := map[];
      owner := map[];
    }

    /** The entry that shows a UI session; the map is searched in no particular order. */
    method GetSessionBySessionId(id: SessionId) returns (r: Option<PeerKey>)
      requires Valid()
      ensures r == if id in owner then Some(owner[id]) else None
    {
      assert id in owner ==> Shows(sessions, owner[id], id);
      var rest := sessions.Keys;
      while rest != {}
        invariant rest <= sessions.Keys
        invariant forall key :: key in sessions && key !in rest ==> !Shows(sessions, key, id)
        decreases rest
      {
        var key :| key in rest;
        if id in sessions[key] {
          assert Shows(sessions, key, id);
          return Some(key);
        }
        rest := rest - {key};
      }
      return None;
    }

    /** `session_add`: refused exactly when the UI session is known already. */
    method SessionAdd(id: SessionId, peerId: string, connType: ConnType) returns (ok: bool)
      requires Valid()
      modifies this
      ensures Valid() && ok == (id !in old(owner))
      ensures owner == if ok then old(owner)[id := PeerKey(peerId, connType)] else old(owner)
      ensures sessions == if ok then Inserted(old(sessions), PeerKey(peerId, connType), id) else old(sessions)
    {
      var found := GetSessionBySessionId(id);
      if found.Some? {
        return false;
      }
      var key := PeerKey(peerId, connType);
      InsertOwned(sessions, owner, key, id);
      if key !in sessions {
        sessions := sessions[key := map[]];
      }
      sessions := sessions[key := sessions[key][id := Handler([])]];
      assert sessions == Inserted(old(sessions), key, id);
      owner := owner[id := key];
      return true;
    }

    /** `insert_peer_session_id`: the id is not checked, so it must not belong to another peer
        session for the registry to stay consistent. */
    method InsertPeerSessionId(peerId: string, connType: ConnType, id: SessionId, displays: seq<nat>) returns (ok: bool)
      requires Valid()
      modifies this
      ensures ok == (PeerKey(peerId, connType) in old(sessions))
      ensures sessions == Attached(old(sessions), PeerKey(peerId, connType), id, displays)
      ensures owner == if ok then old(owner)[id := PeerKey(peerId, connType)] else old(owner)
      ensures Valid() <==> !(ok && id in old(owner) && old(owner)[id] != PeerKey(peerId, connType))
    {
      var key := PeerKey(peerId, connType);
      AttachExactly(sessions, owner, key, id, displays);
      if key !in sessions {
        return false;
      }
      if id !in owner || owner[id] == key { AttachOwned(sessions, owner, key, id, displays); }
      sessions := sessions[key := sessions[key][id := Handler(displays)]];
      owner := owner[id := key];
      return true;
    }

    /** Returns the peer session exactly when its last UI session goes. */
    method RemoveSessionBySessionId(id: SessionId) returns (r: Option<PeerKey>)
      requires Valid()
      modifies this
      ensures Valid() && owner == old(owner) - {id}
      ensures r.Some? <==> id in old(owner) && forall other :: other in owner ==> owner[other] != old(owner)[id]
      ensures r.Some? ==> r.value == old(owner)[id] && r.value !in sessions
      ensures id in old(owner) ==>
                old(owner)[id] in old(sessions) && sessions == RemovedFrom(old(sessions), old(owner)[id], id)
      ensures id !in old(owner) ==> sessions == old(sessions)
    {
      var found := GetSessionBySessionId(id);
      if found.None? {
        assert owner - {id} == owner;
        return None;
      }
      var key := found.value;
      assert Shows(sessions, key, id);
      RemoveOwned(sessions, owner, key, id);
      var handlers := sessions[key] - {id};
      owner := owner - {id};
      if handlers == map[] {
        sessions := sessions - {key};
        return Some(key);
      }
      sessions := sessions[key := handlers];
      return None;
    }
  }
}
