/** One running whisp process on its mutable stores; each operation refines a peer's step. */
module Process {
  import opened Cells
  import opened CText
  import opened Strtok
  import opened Records
  import opened Frames
  import opened Generators
  import opened Handshake
  import opened Peers
  import opened Sessions
  import opened Serialization
  import opened Bytes

  /** How an operation went: with these datagrams sent, or into undefined behaviour. */
  datatype Report = Ran(sent: seq<Datagram>) | Crashed

  predicate TooLong(p: Packet) {
    |SessionFrame(p.wire)| >= 6000
  }

  /** A frame would not fit the buffer it is printed into. */
  predicate Overflows(sent: seq<Packet>) {
    sent != [] && (TooLong(sent[0]) || Overflows(sent[1..]))
  }

  lemma PutBack<K, V>(m: map<K, V>, k: K, v: V)
    ensures (m - {k})[k := v] == m[k := v]
  {
  }

  lemma OneFrame(p: Packet)
    ensures PrintAll([p]) == [Print(p)] && (Overflows([p]) <==> TooLong(p))
  {
    assert [p][1..] == [];
  }

  lemma MoreFrames(p: Packet, sent: seq<Packet>)
    ensures Overflows([p] + sent) <==> TooLong(p) || Overflows(sent)
    ensures PrintAll([p] + sent) == [Print(p)] + PrintAll(sent)
  {
    OneFrame(p);
    PrintedMore([p], sent);
    assert ([p] + sent)[1..] == sent;
  }

  class Whisp {
    const guid: Guid      // configuration's GUID
    const rsa: Rsa
    const peers: Peerstore
    const sessions: SessionStore
    var last: Session?    // last_session

    ghost predicate Valid()
      reads peers, peers.members`guid, peers.members`ip, sessions, sessions.members`sessionId
      reads sessions.members`localPeer, sessions.members`foreignPeer, sessions.members`local, sessions.members`foreign
    {
      peers.Valid() && SessionsOk()
    }

    ghost predicate SessionsOk()
      reads peers`members, peers.members`guid, sessions, sessions.members`sessionId
      reads sessions.members`localPeer, sessions.members`foreignPeer, sessions.members`local, sessions.members`foreign
    {
      sessions.Valid() && forall s | s in sessions.members :: Linked(s, peers)
    }

    ghost function LastView(): Last
      requires sessions.Valid()
      reads this`last, sessions, sessions.members`sessionId
    {
      if last == null then NoLast
      else if last in sessions.members then assert sessions.Filed(last); Stored(last.sessionId.value)
      else Dangling
    }

    /** The process as far as sessions go. */
    ghost function NodeView(): Node
      requires sessions.Valid()
      reads this`last, sessions, sessions.members
    {
      Node(guid, map[], sessions.Values(), LastView())
    }

    /** The process as a value. */
    ghost function View(): Node
      requires Valid()
      reads this, peers, peers.members, sessions, sessions.members
    {
      Node(guid, peers.View(), sessions.Values(), LastView())
    }

    constructor (guid: Guid, rsa: Rsa)
      ensures Valid() && View() == Node(guid, map[], map[], NoLast)
      ensures this.guid == guid && this.rsa == rsa && fresh(peers) && fresh(sessions)
    {
      this.guid, this.rsa, last := guid, rsa, null;
      peers := new Peerstore();
      sessions := new SessionStore();
    }

    // ---- sending ----

    /** `authentication_update_foriegn_session` */
    method UpdateForeignSession(s: Session) returns (r: Report)
      requires Linked(s, peers)
      ensures r == if !Printable(s.Value()) || TooLong(PacketOf(s.Value())) then Crashed
                   else Ran([Print(PacketOf(s.Value()))])
      ensures r.Ran? ==> s.local.Is? && s.foreign.Is? && s.currentState.Is? && s.sharedSecretLen.Is?
      ensures var v := s.Value();
              r.Crashed? <==>
              || !v.local.Is? || !v.foreign.Is? || !v.state.Is? || !v.secretLen.Is? || v.secret == Unset
              || v.id == Unset || v.origin == Unset || v.localPub == Unset || v.foreignPub == Unset
              || 146 + |v.local.value| + |v.foreign.value| + |NullText(v.secret)| + |PrintInt(Code(v.state.value))|
                 + |NullText(v.id)| + |NullText(v.origin)| + |NullText(v.localPub)| + |NullText(v.foreignPub)|
                 + |PrintInt(AsInt32(v.secretLen.value))| >= 6000
      ensures r.Ran? ==> |r.sent| == 1 && r.sent[0].dest == s.foreign.value && |r.sent[0].text| < 6000
    {
      if !s.localPeer.Is? || !s.foreignPeer.Is? {
        return Crashed;
      }
      var local, foreign := s.localPeer.value.guid, s.foreignPeer.value.guid;
      if !s.currentState.Is? || !s.sharedSecretLen.Is? {
        return Crashed;
      }
      if s.sharedSecret == Unset || s.sessionId == Unset || s.originGuid == Unset {
        return Crashed;
      }
      if s.localPublicKey == Unset || s.foreignPublicKey == Unset {
        return Crashed;
      }
      var w := WireFor(s, peers);
      FrameLength(SessionPairs(w));
      SessionFrameLength(w);
      if PairsLength(SessionPairs(w)) >= 6000 {
        return Crashed;
      }
      var buf, len := SerializeSessionData(s, peers);
      return Ran([Datagram(foreign.value, buf[..len])]);
    }

    // ---- the state machine ----

    /** The session, `last_session` and the network have become what the update `u` says. */
    twostate predicate Did(s: Session, u: Update, r: Report)
      reads this, s
    {
      match u
      case Undefined => r == Crashed
      case Updated(v, sent, resolved) =>
        if Overflows(sent) then r == Crashed
        else r == Ran(PrintAll(sent)) && s.Value() == v && last == if resolved then s else old(last)
    }

    /** `authentication_session_update` */
    method AuthenticationSessionUpdate(s: Session, d: Draw) returns (r: Report)
      requires Linked(s, peers)
      modifies this`last, s`localKeypair, s`localPublicKey, s`foreignPublicKey,
               s`sharedSecret, s`sharedSecretLen, s`currentState
      ensures Did(s, Advance(rsa, guid, old(s.Value()), d), r)
      decreases if s.currentState == Is(Handshaking) then 2 else 0
    {
      if !s.currentState.Is? {
        return Crashed;
      }
      match s.currentState.value {
        case PreHandshake => r := SendOffer(s, d);
        case PublicKeyExchange => r := SendAnswer(s, d);
        case Handshaking => r := SealSecret(s, d);
        case Connected => r := ConnectSession(s);
        case _ => r := Ran([]);
      }
    }

    /** The PRE_HANDSHAKE case. */
    method SendOffer(s: Session, d: Draw) returns (r: Report)
      requires Linked(s, peers)
      modifies s`localKeypair, s`localPublicKey, s`currentState
      ensures Did(s, Offer(rsa, guid, old(s.Value()), d), r)
    {
      s.localKeypair := Is(d.key);
      s.localPublicKey := Is(rsa.pub(d.key));
      s.currentState := Is(PublicKeyExchange);
      if !s.originGuid.Is? {
        return Crashed;
      }
      if s.originGuid.value == guid {
        r := UpdateForeignSession(s);
        if r.Ran? || Printable(s.Value()) {
          OneFrame(PacketOf(s.Value()));
        }
      } else {
        r := Ran([]);
      }
    }

    /** The PUBLIC_KEY_EXCHANGE case. */
    method SendAnswer(s: Session, d: Draw) returns (r: Report)
      requires Linked(s, peers)
      modifies s`localKeypair, s`foreignPublicKey, s`currentState
      ensures Did(s, Answer(rsa, old(s.Value()), d), r)
    {
      s.localKeypair := Is(d.key);
      s.foreignPublicKey := Is(rsa.pub(d.key));
      s.currentState := Is(Handshaking);
      r := UpdateForeignSession(s);
      if r.Ran? || Printable(s.Value()) {
        OneFrame(PacketOf(s.Value()));
      }
    }

    /** The HANDSHAKING case up to the send, for the secret `sharedKey`. */
    method SendSealed(s: Session, d: Draw) returns (r: Report)
      requires s.foreignPublicKey.Is? && Linked(s, peers)
      modifies s`sharedSecret, s`sharedSecretLen, s`currentState
      ensures s.Value() == SealedSess(rsa, old(s.Value()), d)
      ensures r == if !Printable(s.Value()) || TooLong(PacketOf(s.Value())) then Crashed
                   else Ran([Print(PacketOf(s.Value()))])
    {
      var encrypted := rsa.enc(s.foreignPublicKey.value, SecretOf(d), d.padding);
      s.sharedSecret := Is(encrypted);
      s.sharedSecretLen := Is(|encrypted|);
      s.currentState := Is(Connected);
      r := UpdateForeignSession(s);
    }

    /** The HANDSHAKING case: draw a secret, send it encrypted, keep it in the clear, re-enter. */
    method SealSecret(s: Session, d: Draw) returns (r: Report)
      requires Linked(s, peers)
      modifies this`last, s`localKeypair, s`localPublicKey, s`foreignPublicKey,
               s`sharedSecret, s`sharedSecretLen, s`currentState
      ensures Did(s, Seal(rsa, guid, old(s.Value()), d), r)
      decreases 1
    {
      if !s.foreignPublicKey.Is? {
        return Crashed;
      }
      hide Advance;
      hide Linked;
      r := SendSealed(s, d);
      ghost var s1 := s.Value();
      ghost var u := Advance(rsa, guid, s1.(secret := Is(SecretOf(d))), d);
      if Printable(s1) && u.Updated? {
        MoreFrames(PacketOf(s1), u.sent);
      }
      hide Overflows;
      hide TooLong;
      hide PrintAll;
      hide Printable;
      if r.Crashed? {
        return;
      }
      s.sharedSecret := Is(SecretOf(d));
      var again := AuthenticationSessionUpdate(s, d);
      if again.Crashed? {
        return Crashed;
      }
      return Ran(r.sent + again.sent);
    }

    /** The CONNECTED case. */
    method ConnectSession(s: Session) returns (r: Report)
      modifies this`last, s`sharedSecret
      ensures Did(s, Connect(rsa, guid, old(s.Value())), r)
    {
      if !s.originGuid.Is? {
        return Crashed;
      }
      if s.originGuid.value == guid {
        last := s;
      } else {
        if !s.localKeypair.Is? || !s.sharedSecret.Is? || !s.sharedSecretLen.Is? {
          return Crashed;
        }
        var secret, len := s.sharedSecret.value, s.sharedSecretLen.value;
        if !(0 < len <= |secret|) {
          return Crashed;
        }
        s.sharedSecret := Is(rsa.dec(s.localKeypair.value, secret[..len]));
        last := s;
      }
      return Ran([]);
    }

    // ---- stored sessions ----

    /** The sessions, `last_session` and the network have become what the step says. (No step of a
        session touches the peerstore.) */
    ghost predicate Took(step: Step, r: Report)
      reads this`last, peers`members, peers.members`guid, sessions, sessions.members
    {
      match step
      case Fault => r == Crashed
      case Stepped(n, sent) =>
        if Overflows(sent) then r == Crashed
        else r == Ran(PrintAll(sent)) && SessionsOk() && sessions.Values() == n.sessions && LastView() == n.last
    }

    /** Run the state machine on the stored session `s`. */
    method UpdateStored(s: Session, id: string, d: Draw) returns (r: Report)
      requires SessionsOk() && id in sessions.contents && sessions.contents[id] == s
      modifies this`last, s`localKeypair, s`localPublicKey, s`foreignPublicKey,
               s`sharedSecret, s`sharedSecretLen, s`currentState
      ensures SessionsOk() && Did(s, Advance(rsa, guid, old(s.Value()), d), r)
      ensures sessions.Values() == old(sessions.Values())[id := s.Value()]
    {
      hide Did;
      hide Advance;
      hide Linked;
      ghost var was := sessions.Values();
      assert sessions.Filed(s);
      r := AuthenticationSessionUpdate(s, d);
      sessions.ValuesAfter(was, id);
    }

    /** Run the state machine on the session stored under `id`. */
    method SettleSession(s: Session, id: string, d: Draw) returns (r: Report)
      requires SessionsOk() && id in sessions.contents && sessions.contents[id] == s
      modifies this`last, s`localKeypair, s`localPublicKey, s`foreignPublicKey,
               s`sharedSecret, s`sharedSecretLen, s`currentState
      ensures Took(Settle(rsa, old(NodeView()), id, d), r)
    {
      hide Advance;
      hide Linked;
      hide Overflows;
      hide PrintAll;
      r := UpdateStored(s, id, d);
    }

    /** `session_add` of a session with a new id. */
    method StoreNew(s: Session, id: string)
      requires SessionsOk() && Linked(s, peers) && s.sessionId == Is(id) && id !in sessions.contents
      requires last != s
      modifies sessions
      ensures SessionsOk() && id in sessions.contents && sessions.contents[id] == s
      ensures LastView() == old(LastView())
      ensures sessions.Values() == old(sessions.Values())[id := s.Value()]
    {
      assert s in sessions.members ==> sessions.Filed(s);
      hide SessionStore.Valid;
      sessions.Add(s);
    }

    /** `session_destroy`; `last_session` is left pointing where it pointed. */
    method Unstore(s: Session, id: string)
      requires SessionsOk() && id in sessions.contents && sessions.contents[id] == s
      modifies sessions
      ensures SessionsOk() && id !in sessions.contents && sessions.members == old(sessions.members) - {s}
      ensures LastView() == if old(LastView()) == Stored(id) then Dangling else old(LastView())
      ensures sessions.Values() == old(sessions.Values()) - {id}
    {
      assert sessions.Filed(s);
      assert last in sessions.members ==> sessions.Filed(last);
      sessions.Destroy(s);
    }

    /** `session_destroy` of the session stored under `id` and `session_add` of its replacement. */
    method Replace(oldSession: Session, s: Session, id: string)
      requires SessionsOk() && id in sessions.contents && sessions.contents[id] == oldSession
      requires Linked(s, peers) && s.sessionId == Is(id) && s !in sessions.members && last != s
      modifies sessions
      ensures SessionsOk() && id in sessions.contents && sessions.contents[id] == s
      ensures LastView() == if old(LastView()) == Stored(id) then Dangling else old(LastView())
      ensures sessions.Values() == old(sessions.Values())[id := s.Value()]
    {
      ghost var was := sessions.Values();
      Unstore(oldSession, id);
      StoreNew(s, id);
      PutBack(was, id, s.Value());
    }

    /** Nothing `session_destroy` would free is uninitialised. */
    static predicate CheckDestroyable(s: Session): (b: bool)
      reads s
      ensures b == Destroyable(s.Value())
    {
      s.sessionId.Is? && s.originGuid.Is? && s.localKeypair != Unset
      && s.sharedSecret != Unset && s.localPublicKey != Unset && s.foreignPublicKey != Unset
    }

    /** The key pair is "not held or transmitted anywhere else": hand it on. */
    method CarryKeypair(oldSession: Session, s: Session)
      requires SessionsOk() && s !in sessions.members
      modifies s`localKeypair
      ensures SessionsOk() && sessions.Values() == old(sessions.Values()) && LastView() == old(LastView())
      ensures s.Value() == if oldSession.localKeypair.Is? then old(s.Value()).(keypair := oldSession.localKeypair)
                           else old(s.Value())
    {
      if oldSession.localKeypair.Is? {
        s.localKeypair := oldSession.localKeypair;
      }
    }

    /** Hand the key pair on, then replace. */
    method Supersede(oldSession: Session, s: Session, id: string)
      requires SessionsOk() && Linked(s, peers) && s !in sessions.members && last != s && s.sessionId == Is(id)
      requires id in sessions.contents && sessions.contents[id] == oldSession
      modifies sessions, s`localKeypair
      ensures SessionsOk() && id in sessions.contents && sessions.contents[id] == s
      ensures LastView() == if old(LastView()) == Stored(id) then Dangling else old(LastView())
      ensures var kept := old(oldSession.localKeypair);
              var carried := if kept.Is? then old(s.Value()).(keypair := kept) else old(s.Value());
              sessions.Values() == old(sessions.Values())[id := carried]
    {
      assert oldSession in sessions.members;
      hide SessionStore.Valid;
      hide SessionStore.Values;
      hide Linked;
      CarryKeypair(oldSession, s);
      Replace(oldSession, s, id);
    }

    /** The branch of an id already stored. */
    method PutOver(oldSession: Session, s: Session, id: string) returns (ok: bool)
      requires SessionsOk() && Linked(s, peers) && s !in sessions.members && last != s && s.sessionId == Is(id)
      requires id in sessions.contents && sessions.contents[id] == oldSession
      modifies sessions, s`localKeypair
      ensures ok == PutIn(old(NodeView()), id, old(s.Value())).Some?
      ensures ok ==> SessionsOk() && id in sessions.contents && sessions.contents[id] == s
                     && NodeView() == PutIn(old(NodeView()), id, old(s.Value())).value
    {
      assert oldSession in sessions.members;
      assert id in NodeView().sessions && NodeView().sessions[id] == oldSession.Value();
      hide SessionStore.Valid;
      hide SessionStore.Values;
      hide Destroyable;
      hide Linked;
      ok := CheckDestroyable(oldSession);
      if ok {
        Supersede(oldSession, s, id);
      }
    }

    /** `session_check_exists_by_id`, which may make the tree. */
    method KnowsSession(id: string) returns (b: bool)
      requires SessionsOk()
      modifies sessions`made
      ensures SessionsOk() && NodeView() == old(NodeView()) && b == (id in sessions.contents)
    {
      hide SessionStore.Valid;
      hide SessionStore.Values;
      hide Linked;
      b := sessions.CheckExistsById(id);
    }

    /** The branch of a new id. */
    method PutNew(s: Session, id: string)
      requires SessionsOk() && Linked(s, peers) && s !in sessions.members && last != s && s.sessionId == Is(id)
      requires id !in sessions.contents
      modifies sessions
      ensures PutIn(old(NodeView()), id, s.Value()).Some?
      ensures SessionsOk() && id in sessions.contents && sessions.contents[id] == s
      ensures NodeView() == PutIn(old(NodeView()), id, s.Value()).value
    {
      StoreNew(s, id);
    }

    /** Store an incoming session; `ok` is false where that reads unset fields. */
    method PutSession(s: Session, id: string) returns (ok: bool)
      requires SessionsOk() && Linked(s, peers) && s !in sessions.members && last != s && s.sessionId == Is(id)
      modifies sessions, s`localKeypair
      ensures ok == PutIn(old(NodeView()), id, old(s.Value())).Some?
      ensures ok ==> SessionsOk() && id in sessions.contents && sessions.contents[id] == s
                     && NodeView() == PutIn(old(NodeView()), id, old(s.Value())).value
    {
      hide PutIn;
      hide Linked;
      var known := KnowsSession(id);
      if !known {
        PutNew(s, id);
        return true;
      }
      var found, oldSession := sessions.GetSession(id);
      assert found;  // "Error getting old session" does not happen
      ok := PutOver(oldSession, s, id);
    }

    /** `passive_listener_callback` once the frame is parsed. */
    method ReceiveSession(s: Session, d: Draw) returns (r: Report)
      requires SessionsOk() && Linked(s, peers) && s !in sessions.members && last != s
      modifies this`last, sessions, s
      ensures Took(Receive(rsa, old(NodeView()), old(s.Value()), d), r)
    {
      hide Settle;
      hide PutIn;
      if !s.sessionId.Is? {
        return Crashed;
      }
      var ok := PutSession(s, s.sessionId.value);
      if !ok {
        return Crashed;
      }
      r := SettleSession(s, s.sessionId.value, d);
    }

    // ---- the entry points ----

    /** Parse an incoming frame into a session that is not stored yet. */
    method ParseIncoming(buf: array<char>, len: nat) returns (status: SessionStatus, s: Session?)
      requires Valid() && Terminated(buf, 0, len)
      modifies buf
      ensures SessionsOk() && NodeView() == old(NodeView())
      ensures match ParseSession(guid, old(View()).peers.Keys, old(buf[..len]))
              case SessOkay(v) => status == SessionOkay && s != null && fresh(s) && s.Value() == v && Linked(s, peers)
                                  && s !in sessions.members && last != s
              case SessMalformed => status == SessionMalformed
              case SessFault => status == SessionUndefined
    {
      status, s := DeserializeSessionData(guid, peers, buf, len);
    }

    /** `passive_listener_callback` */
    method PassiveListenerCallback(buf: array<char>, len: nat, d: Draw) returns (r: Report)
      requires Valid() && Terminated(buf, 0, len)
      modifies buf, this`last, sessions
      ensures Took(ReceiveText(rsa, old(View()), old(buf[..len]), d), r)
    {
      hide ParseSession;
      hide Receive;
      ghost var n, m := View(), NodeView();
      assert n == m.(peers := n.peers);
      var status, s := ParseIncoming(buf, len);
      match status {
        case SessionUndefined => return Crashed;
        case SessionMalformed => return Ran([]);
        case SessionOkay =>
          PeersUntouched(rsa, m, n.peers, s.Value(), d);
          r := ReceiveSession(s, d);
      }
    }

    /** Comparing peer pointers, as `session_check_exists` does, is comparing guids: the peerstore has
        one record per guid and never swaps it for another. */
    lemma PointersAreGuids(local: RawPeer, foreign: RawPeer)
      requires Valid() && local in peers.members && foreign in peers.members
      ensures local.guid.Is? && foreign.guid.Is?
      ensures (exists s | s in sessions.members :: s.localPeer == Is(local) && s.foreignPeer == Is(foreign))
              <==> HasSessionBetween(NodeView(), local.guid.value, foreign.guid.value)
    {
      assert peers.Filed(local) && peers.Filed(foreign);
      var g, f := local.guid.value, foreign.guid.value;
      var m := NodeView().sessions;
      if s :| s in sessions.members && s.localPeer == Is(local) && s.foreignPeer == Is(foreign) {
        assert sessions.Filed(s) && Linked(s, peers);
        assert s.sessionId.value in m;
      }
      if id :| id in m && m[id].local == Is(g) && m[id].foreign == Is(f) {
        var s := sessions.contents[id];
        assert s in sessions.members && Linked(s, peers);
        assert s.localPeer.Is? && peers.Filed(s.localPeer.value);
        assert s.foreignPeer.Is? && peers.Filed(s.foreignPeer.value);
      }
    }

    /** The object `session_create` makes. */
    method NewSession(local: RawPeer, foreign: RawPeer, id: string) returns (s: Session)
      requires local in peers.members && foreign in peers.members && local.guid.Is? && foreign.guid.Is?
      ensures fresh(s) && s.localPeer == Is(local) && s.foreignPeer == Is(foreign) && Linked(s, peers)
      ensures s.Value() == Created(local.guid.value, foreign.guid.value, id)
    {
      s := new Session();
      s.localPeer, s.local := Is(local), local.guid;
      s.foreignPeer, s.foreign := Is(foreign), foreign.guid;
      s.sharedSecret, s.sharedSecretLen := Null, Is(0);
      s.localPublicKey, s.foreignPublicKey, s.localKeypair := Null, Null, Null;
      s.currentState := Is(PreHandshake);
      s.sessionId := Is(id);
      s.originGuid := local.guid;
    }

    /** `session_create`, drawing `id`. */
    method CreateSession(local: RawPeer, foreign: RawPeer, id: string) returns (s: Session)
      requires SessionsOk() && id !in sessions.contents
      requires local in peers.members && foreign in peers.members && local.guid.Is? && foreign.guid.Is?
      modifies sessions
      ensures fresh(s) && SessionsOk() && id in sessions.contents && sessions.contents[id] == s
      ensures s.localPeer == Is(local) && s.foreignPeer == Is(foreign)
      ensures sessions.Values() == old(sessions.Values())[id := Created(local.guid.value, foreign.guid.value, id)]
      ensures LastView() == old(LastView())
    {
      hide SessionStore.Valid;
      s := NewSession(local, foreign, id);
      StoreNew(s, id);
    }

    /** `session_check_exists`, which may make the tree. */
    method HasSession(local: RawPeer, foreign: RawPeer) returns (b: bool)
      requires Valid() && local in peers.members && foreign in peers.members
      modifies sessions`made
      ensures Valid() && NodeView() == old(NodeView()) && local.guid.Is? && foreign.guid.Is?
      ensures b == HasSessionBetween(NodeView(), local.guid.value, foreign.guid.value)
    {
      hide HasSessionBetween;
      PointersAreGuids(local, foreign);
      b := HasPointers(local, foreign);
    }

    method HasPointers(local: RawPeer, foreign: RawPeer) returns (b: bool)
      requires Valid()
      modifies sessions`made
      ensures Valid() && NodeView() == old(NodeView())
      ensures b <==> exists s | s in sessions.members :: s.localPeer == Is(local) && s.foreignPeer == Is(foreign)
    {
      hide Peerstore.Valid;
      hide SessionStore.Valid;
      hide SessionStore.Values;
      hide Linked;
      b := sessions.CheckExists(local, foreign);
    }

    /** `peerstore_check_peer`, with the record it finds. */
    method FindPeer(g: Guid) returns (found: bool, peer: RawPeer?)
      requires Valid()
      ensures found == (g in View().peers)
      ensures found ==> peer != null && peer in peers.members && peer.guid == Is(g)
    {
      found, peer := peers.CheckPeer(g);
    }

    /** The checks of `user_start_session`. */
    method CheckStart(foreignGuid: Guid) returns (go: bool, local: RawPeer?, foreign: RawPeer?)
      requires Valid()
      modifies sessions`made
      ensures SessionsOk() && NodeView() == old(NodeView())
      ensures go == WillStart(old(View()), foreignGuid)
      ensures go ==> local != null && local in peers.members && local.guid == Is(guid)
      ensures go ==> foreign != null && foreign in peers.members && foreign.guid == Is(foreignGuid)
    {
      hide SessionStore.Valid;
      hide Peerstore.Valid;
      hide Linked;
      ghost var n := View();
      assert n == NodeView().(peers := n.peers);
      var found;
      foreign := null;
      found, local := FindPeer(guid);
      if !found {
        return false, null, null;
      }
      found, foreign := FindPeer(foreignGuid);
      if !found {
        return false, null, null;
      }
      var existing := HasSession(local, foreign);
      go := !existing;
    }

    /** Create the session and run the state machine on it. */
    method BeginSession(local: RawPeer, foreign: RawPeer, id: string, d: Draw) returns (r: Report)
      requires SessionsOk() && id !in sessions.contents
      requires local in peers.members && foreign in peers.members && local.guid.Is? && foreign.guid.Is?
      modifies this`last, sessions
      ensures var n := old(NodeView());
              var created := Created(local.guid.value, foreign.guid.value, id);
              Took(Settle(rsa, n.(sessions := n.sessions[id := created]), id, d), r)
    {
      hide Settle;
      hide SessionStore.Valid;
      hide Peerstore.Valid;
      hide Linked;
      var s := CreateSession(local, foreign, id);
      var ret, handle := sessions.GetSession(id);
      assert ret && handle.localPeer == Is(local) && handle.foreignPeer == Is(foreign);
      r := SettleSession(handle, id, d);
    }

    /** `user_start_session` */
    method UserStartSession(foreignGuid: Guid, id: string, d: Draw) returns (r: Report)
      requires Valid() && id !in sessions.contents
      modifies this`last, sessions
      ensures Took(StartSession(rsa, old(View()), foreignGuid, id, d), r)
      ensures var n, pub := old(View()), rsa.pub(d.key);
              var ready := && guid in n.peers && foreignGuid in n.peers
                           && forall x | x in n.sessions ::
                                !(n.sessions[x].local == Is(guid) && n.sessions[x].foreign == Is(foreignGuid));
              var frame := SessionFrame(Wire(guid, foreignGuid, "(null)", 4, id, guid, pub, "(null)", 0));
              var s := Sess(Is(guid), Is(foreignGuid), Is(d.key), Is(pub), Null, Null, Is(0),
                            Is(PublicKeyExchange), Is(id), Is(guid));
              if !ready then r == Ran([]) && sessions.Values() == n.sessions
              else if |frame| >= 6000 then r == Crashed
              else r == Ran([Datagram(foreignGuid, frame)]) && sessions.Values() == n.sessions[id := s]
    {
      r := StartChecked(foreignGuid, id, d);
      ghost var n, pub := old(View()), rsa.pub(d.key);
      StartMeaning(rsa, n, foreignGuid, id, d);
      OneFrame(Packet(foreignGuid, Wire(guid, foreignGuid, "(null)", 4, id, guid, pub, "(null)", 0)));
      hide StartSession;
      hide SessionStore.Valid;
      hide Peerstore.Valid;
      hide Linked;
    }

    method StartChecked(foreignGuid: Guid, id: string, d: Draw) returns (r: Report)
      requires Valid() && id !in sessions.contents
      modifies this`last, sessions
      ensures Took(StartSession(rsa, old(View()), foreignGuid, id, d), r)
    {
      hide Settle;
      hide WillStart;
      ghost var n, m := View(), NodeView();
      assert n == m.(peers := n.peers);
      var go, local, foreign := CheckStart(foreignGuid);
      if !go {
        return Ran([]);
      }
      ghost var m1 := m.(sessions := m.sessions[id := Created(guid, foreignGuid, id)]);
      SettleIgnoresPeers(rsa, m1, n.peers, id, d);
      r := BeginSession(local, foreign, id, d);
    }

    /** `session_shutdown` of each session on the list. */
    method ShutdownAll(l: seq<Session>)
      modifies (set s | s in l)`currentState
      ensures forall s | s in l :: s.currentState == Is(Closing)
    {
      var k := 0;
      while k < |l|
        invariant 0 <= k <= |l|
        invariant forall i | 0 <= i < k :: l[i].currentState == Is(Closing)
      {
        ShutdownSession(l[k]);
        k := k + 1;
      }
    }

    method ShutdownConnected()
      requires Valid()
      modifies sessions.members`currentState
      ensures forall s | s in sessions.members ::
                s.currentState == if old(s.currentState) == Is(Connected) then Is(Closing) else old(s.currentState)
    {
      var list := sessions.GetConnectedSessions();
      if list.Some? {
        ShutdownAll(list.value);
      }
    }

    /** The SIGINT branch of `signal_callback`. */
    method Interrupt()
      requires Valid()
      modifies sessions.members`currentState
      ensures Valid() && NodeView() == Shutdown(old(NodeView()))
      ensures sessions.Values().Keys == old(sessions.Values()).Keys
      ensures forall id | id in sessions.Values() ::
                var s := old(sessions.Values())[id];
                sessions.Values()[id] == if s.state == Is(Connected) then s.(state := Is(Closing)) else s
    {
      hide Peerstore.Valid;
      hide Linked;
      ghost var was := sessions.Values();
      ShutdownConnected();
      sessions.ValuesShut(was);
    }

    /** The first half of `multicast_serialization_process`: the record of a complete pulse, NULL for a
        message that is refused, and `ok` false where unset fields are freed or checked. */
    method ParsePulseRecord(buf: array<char>, len: nat, ip: string) returns (ok: bool, rp: RawPeer?)
      requires Terminated(buf, 0, len)
      modifies buf
      ensures match ParsePulse(old(buf[..len]))
              case PulseOkay(p) =>
                ok == Complete(p) && (ok ==> rp != null && fresh(rp) && rp.ThePulse() == p && rp.ip == Is(ip))
              case PulseFault => !ok
              case _ => ok && rp == null
    {
      hide ParsePulse;
      var status;
      status, rp := DeserializeData(buf, len, ip);
      match status {
        case Undefined => return false, null;
        case Malformed => return true, null;
        case Unknown => return true, null;
        case Okay => ok := rp.guid.Is? && rp.command.Is? && rp.ip.Is? && rp.port.Is?;
      }
    }

    /** `multicast_serialization_process`: records are added and updated, none is ever replaced. */
    method MulticastSerializationProcess(buf: array<char>, len: nat, ip: string) returns (r: Report)
      requires Valid() && Terminated(buf, 0, len)
      modifies buf, peers, peers.members`command, peers.members`port, peers.members`securePort,
               peers.members`peerstring
      ensures match HearPulse(old(peers.View()), old(buf[..len]), ip)
              case None => r == Crashed
              case Some(heard) =>
                r == Ran([]) && Valid() && peers.View() == heard && NodeView() == old(NodeView())
      ensures forall g | g in old(peers.contents) :: g in peers.contents && peers.contents[g] == old(peers.contents[g])
    {
      hide ParsePulse;
      hide Absorbed;
      hide Full;
      hide Replaceable;
      hide Peerstore.Valid;
      hide SessionStore.Valid;
      hide Linked;
      var ok, rp := ParsePulseRecord(buf, len, ip);
      if ok && rp != null {
        ok := TakePulse(rp);
      }
      r := if ok then Ran([]) else Crashed;
    }

    /** The second half, for a record that passed the checks. */
    method TakePulse(rp: RawPeer) returns (ok: bool)
      requires Valid() && rp !in peers.members && Complete(rp.ThePulse()) && rp.ip.Is?
      modifies peers, peers.members`command, peers.members`port, peers.members`securePort, peers.members`peerstring
      ensures ok == Takeable(old(peers.View()), old(rp.ThePulse()))
      ensures Valid() && NodeView() == old(NodeView())
      ensures ok ==> peers.View() == Absorbed(old(peers.View()), old(rp.ThePulse()), old(rp.ip.value))
      ensures forall g | g in old(peers.contents) :: g in peers.contents && peers.contents[g] == old(peers.contents[g])
    {
      hide Absorbed;
      hide Takeable;
      hide Peerstore.Valid;
      hide Peerstore.View;
      hide SessionStore.Valid;
      hide SessionStore.Values;
      ok := peers.AddOrUpdate(rp);
      assert old(peers.members) <= peers.members;
      forall s | s in sessions.members
        ensures Linked(s, peers)
      {
        assert old(Linked(s, peers));
      }
    }
  }
}
