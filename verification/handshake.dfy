/** One peer's steps: the session state machine and everything that drives it. */
module Handshake {
  import opened Cells
  import opened CText
  import opened Records
  import opened Frames
  import opened Generators

  // ---- sending ----

  /** glibc's `%s` of a pointer that has been set. */
  function NullText(c: Cell<string>): string {
    if c.Is? then c.value else "(null)"
  }

  /** The fields `serialize_session_data` reads are all set, and both peer pointers lead somewhere. */
  predicate Printable(s: Sess) {
    && s.local.Is? && s.foreign.Is? && s.state.Is? && s.secretLen.Is?
    && s.secret != Unset && s.id != Unset && s.origin != Unset
    && s.localPub != Unset && s.foreignPub != Unset
  }

  function WireOf(s: Sess): Wire
    requires Printable(s)
  {
    Wire(s.local.value, s.foreign.value, NullText(s.secret), Code(s.state.value), NullText(s.id),
         NullText(s.origin), NullText(s.localPub), NullText(s.foreignPub), AsInt32(s.secretLen.value))
  }

  /** `authentication_update_foriegn_session`. */
  function PacketOf(s: Sess): Packet
    requires Printable(s)
  {
    Packet(s.foreign.value, WireOf(s))
  }

  // ---- the state machine ----

  /** What one call of `authentication_session_update` does to the session, sends, and whether it
      makes the session the one `last_session` points at. `Undefined` is a read of an unset field. */
  datatype Update = Updated(s: Sess, sent: seq<Packet>, resolved: bool) | Undefined

  function Advance(c: Rsa, self: Guid, s: Sess, d: Draw): Update
    decreases if s.state == Is(Handshaking) then 2 else 0
  {
    if !s.state.Is? then Undefined
    else match s.state.value
      case PreHandshake => Offer(c, self, s, d)
      case PublicKeyExchange => Answer(c, s, d)
      case Handshaking => Seal(c, self, s, d)
      case Connected => Connect(c, self, s)
      case _ => Updated(s, [], false)
  }

  /** The origin generates its key pair and shares the session. */
  function Offer(c: Rsa, self: Guid, s: Sess, d: Draw): Update {
    var s1 := s.(keypair := Is(d.key), localPub := Is(c.pub(d.key)), state := Is(PublicKeyExchange));
    if !s1.origin.Is? then Undefined
    else if s1.origin.value != self then Updated(s1, [], false)
    else if !Printable(s1) then Undefined
    else Updated(s1, [PacketOf(s1)], false)
  }

  /** The responder generates its key pair and sends the session back. */
  function Answer(c: Rsa, s: Sess, d: Draw): Update {
    var s1 := s.(keypair := Is(d.key), foreignPub := Is(c.pub(d.key)), state := Is(Handshaking));
    if !Printable(s1) then Undefined else Updated(s1, [PacketOf(s1)], false)
  }

  /** The session as the origin sends it with the encrypted secret. */
  function SealedSess(c: Rsa, s: Sess, d: Draw): Sess
    requires s.foreignPub.Is?
  {
    var encrypted := c.enc(s.foreignPub.value, SecretOf(d), d.padding);
    s.(secret := Is(encrypted), secretLen := Is(|encrypted|), state := Is(Connected))
  }

  /** The origin draws the secret, sends it encrypted, keeps it in the clear and re-enters. */
  function Seal(c: Rsa, self: Guid, s: Sess, d: Draw): Update
    decreases 1
  {
    if !s.foreignPub.Is? then Undefined
    else
      var s1 := SealedSess(c, s, d);
      if !Printable(s1) then Undefined
      else
        var again := Advance(c, self, s1.(secret := Is(SecretOf(d))), d);
        if again.Undefined? then Undefined
        else again.(sent := [PacketOf(s1)] + again.sent)
  }

  /** Connected: the responder decrypts the secret first. */
  function Connect(c: Rsa, self: Guid, s: Sess): Update {
    if !s.origin.Is? then Undefined
    else if s.origin.value == self then Updated(s, [], true)
    else if !s.keypair.Is? || !s.secret.Is? || !s.secretLen.Is? then Undefined
    else if !(0 < s.secretLen.value <= |s.secret.value|) then Undefined
    else Updated(s.(secret := Is(c.dec(s.keypair.value, s.secret.value[..s.secretLen.value]))), [], true)
  }

  /** The call that the HANDSHAKING case ends with is one of the CONNECTED case. */
  lemma SealReenters(c: Rsa, self: Guid, s: Sess, d: Draw)
    requires s.state == Is(Handshaking) && s.foreignPub.Is?
    ensures var s1 := SealedSess(c, s, d);
            var again := Connect(c, self, s1.(secret := Is(SecretOf(d))));
            Advance(c, self, s, d) ==
            if !Printable(s1) || again.Undefined? then Undefined
            else Updated(again.s, [PacketOf(s1)], true)
  {
    var s2 := SealedSess(c, s, d).(secret := Is(SecretOf(d)));
    assert Advance(c, self, s2, d) == Connect(c, self, s2);
  }

  /** Exactly when a call reads a field that is not set, or decrypts more than there is. */
  lemma AdvanceUndefinedIff(c: Rsa, self: Guid, s: Sess, d: Draw)
    ensures Advance(c, self, s, d).Undefined? <==>
            match s.state
            case Is(PreHandshake) =>
              !s.origin.Is? ||
              (s.origin.value == self &&
               (!s.local.Is? || !s.foreign.Is? || !s.secretLen.Is? || s.secret == Unset || s.id == Unset
                || s.foreignPub == Unset))
            case Is(PublicKeyExchange) =>
              !s.local.Is? || !s.foreign.Is? || !s.secretLen.Is? || s.secret == Unset || s.id == Unset
              || s.origin == Unset || s.localPub == Unset
            case Is(Handshaking) =>
              !s.foreignPub.Is? || !s.local.Is? || !s.foreign.Is? || s.id == Unset || s.localPub == Unset
              || !s.origin.Is? ||
              (s.origin.value != self &&
               (!s.keypair.Is? || !(0 < |c.enc(s.foreignPub.value, SecretOf(d), d.padding)| <= |SecretOf(d)|)))
            case Is(Connected) =>
              !s.origin.Is? ||
              (s.origin.value != self &&
               (!s.keypair.Is? || !s.secret.Is? || !s.secretLen.Is? || !(0 < s.secretLen.value <= |s.secret.value|)))
            case Is(_) => false
            case _ => true
  {
    if s.state == Is(Handshaking) && s.foreignPub.Is? {
      SealReenters(c, self, s, d);
    }
  }

  /** What a call leaves in the session, field by field: the ends, the id and the origin stay; the state
      moves one place on; a new key pair comes with the first two moves only, its public half on the
      origin's side and then on the responder's. */
  lemma AdvanceKeys(c: Rsa, self: Guid, s: Sess, d: Draw)
    requires Advance(c, self, s, d).Updated?
    ensures var t := Advance(c, self, s, d).s;
            && t.local == s.local && t.foreign == s.foreign && t.id == s.id && t.origin == s.origin
            && t.state == (if s.state == Is(PreHandshake) then Is(PublicKeyExchange)
                           else if s.state == Is(PublicKeyExchange) then Is(Handshaking)
                           else if s.state == Is(Handshaking) then Is(Connected)
                           else s.state)
            && t.keypair == (if s.state in {Is(PreHandshake), Is(PublicKeyExchange)} then Is(d.key) else s.keypair)
            && t.localPub == (if s.state == Is(PreHandshake) then Is(c.pub(d.key)) else s.localPub)
            && t.foreignPub == (if s.state == Is(PublicKeyExchange) then Is(c.pub(d.key)) else s.foreignPub)
  {
    if s.state == Is(Handshaking) && s.foreignPub.Is? {
      SealReenters(c, self, s, d);
    }
  }

  /** The secret is drawn on leaving HANDSHAKING; who is not the origin decrypts what it has on being
      CONNECTED. That is also when the session is resolved. */
  lemma AdvanceSecret(c: Rsa, self: Guid, s: Sess, d: Draw)
    requires Advance(c, self, s, d).Updated?
    ensures var u := Advance(c, self, s, d);
            && u.resolved == (s.state in {Is(Handshaking), Is(Connected)})
            && (s.state in {Is(Handshaking), Is(Connected)} ==>
                  s.origin.Is? && (s.origin.value != self ==> s.keypair.Is?))
            && (s.state == Is(Handshaking) ==>
                  s.foreignPub.Is? &&
                  var x := c.enc(s.foreignPub.value, SecretOf(d), d.padding);
                  && u.s.secretLen == Is(|x|)
                  && (s.origin.value != self ==> |x| <= |SecretOf(d)|)
                  && u.s.secret == Is(if s.origin.value == self then SecretOf(d)
                                      else c.dec(s.keypair.value, SecretOf(d)[..|x|])))
            && (s.state == Is(Connected) && s.origin.value != self ==>
                  && s.secret.Is? && s.secretLen.Is? && s.secretLen.value <= |s.secret.value|
                  && u.s.secret == Is(c.dec(s.keypair.value, s.secret.value[..s.secretLen.value])))
            && (s.state != Is(Handshaking) ==> u.s.secretLen == s.secretLen)
            && (s.state != Is(Handshaking) && !(s.state == Is(Connected) && s.origin != Is(self)) ==>
                  u.s.secret == s.secret)
  {
    if s.state == Is(Handshaking) && s.foreignPub.Is? {
      SealReenters(c, self, s, d);
    }
  }

  /** One frame goes out with each of the three moves, though the first is the origin's alone; none
      otherwise. It goes to the foreign peer and carries the session as it is then, the secret encrypted. */
  lemma AdvanceSends(c: Rsa, self: Guid, s: Sess, d: Draw)
    requires Advance(c, self, s, d).Updated?
    ensures var u := Advance(c, self, s, d);
            var sends := || (s.state == Is(PreHandshake) && s.origin == Is(self))
                         || s.state == Is(PublicKeyExchange) || s.state == Is(Handshaking);
            && |u.sent| == (if sends then 1 else 0)
            && (sends ==>
                  && s.local.Is? && s.foreign.Is? && (s.state == Is(Handshaking) ==> s.foreignPub.Is?)
                  && u.s.state.Is? && u.s.secretLen.Is?
                  && u.sent[0] == Packet(s.foreign.value, Wire(
                       s.local.value, s.foreign.value,
                       if s.state == Is(Handshaking) then c.enc(s.foreignPub.value, SecretOf(d), d.padding)
                       else NullText(s.secret),
                       Code(u.s.state.value), NullText(s.id), NullText(s.origin),
                       NullText(u.s.localPub), NullText(u.s.foreignPub), AsInt32(u.s.secretLen.value))))
  {
    if s.state == Is(Handshaking) && s.foreignPub.Is? {
      SealReenters(c, self, s, d);
    }
  }

  // ---- a peer's steps ----

  datatype Step = Stepped(node: Node, sent: seq<Packet>) | Fault

  /** Run the state machine on the session just stored under `id`. */
  function Settle(c: Rsa, n: Node, id: string, d: Draw): Step
    requires id in n.sessions
  {
    match Advance(c, n.guid, n.sessions[id], d)
    case Undefined => Fault
    case Updated(s, sent, resolved) =>
      Stepped(n.(sessions := n.sessions[id := s], last := if resolved then Stored(id) else n.last), sent)
  }

  /** Every field `session_destroy` looks at has been set. */
  predicate Destroyable(s: Sess) {
    s.id.Is? && s.origin.Is? && s.keypair != Unset
    && s.secret != Unset && s.localPub != Unset && s.foreignPub != Unset
  }

  /** The incoming session `s` stored under its id, in place of a session of that id but with that
      one's key pair. */
  function PutIn(n: Node, id: string, s: Sess): Option<Node> {
    if id !in n.sessions then Some(n.(sessions := n.sessions[id := s]))
    else
      var before := n.sessions[id];
      if !Destroyable(before) then None
      else
        var s1 := if before.keypair.Is? then s.(keypair := before.keypair) else s;
        var last := if n.last == Stored(id) then Dangling else n.last;
        Some(n.(sessions := n.sessions[id := s1], last := last))
  }

  /** `passive_listener_callback` once the frame has been parsed into `s`: store it and run the
      state machine on it. */
  function Receive(c: Rsa, n: Node, s: Sess, d: Draw): Step {
    if !s.id.Is? then Fault
    else
      match PutIn(n, s.id.value, s)
      case None => Fault
      case Some(n1) => Settle(c, n1, s.id.value, d)
  }

  /** `passive_listener_callback` on the text of a frame. */
  function ReceiveText(c: Rsa, n: Node, text: string, d: Draw): Step {
    match ParseSession(n.guid, n.peers.Keys, text)
    case SessOkay(s) => Receive(c, n, s, d)
    case SessMalformed => Stepped(n, [])
    case SessFault => Fault
  }

  /** What a receipt leaves. A session of that id is there before or not: if it is, only its key pair
      lives on, in the new one, and `last_session` dangles if it pointed there, until the new one is
      resolved. The receipt is undefined if the old one has a field that was never set. */
  lemma ReceiptMeaning(c: Rsa, n: Node, s: Sess, d: Draw)
    ensures !s.id.Is? ==> Receive(c, n, s, d).Fault?
    ensures s.id.Is? ==>
              var id, step := s.id.value, Receive(c, n, s, d);
              var stored := id in n.sessions;
              var s1 := if stored && n.sessions[id].keypair.Is? then s.(keypair := n.sessions[id].keypair) else s;
              var u := Advance(c, n.guid, s1, d);
              var unclean := stored && (var o := n.sessions[id];
                                      !o.id.Is? || !o.origin.Is? || o.keypair == Unset || o.secret == Unset
                                      || o.localPub == Unset || o.foreignPub == Unset);
              && (step.Fault? <==> unclean || u.Undefined?)
              && (step.Stepped? ==>
                    && step.sent == u.sent && step.node.guid == n.guid && step.node.peers == n.peers
                    && step.node.sessions == n.sessions[id := u.s]
                    && step.node.last == (if u.resolved then Stored(id)
                                          else if stored && n.last == Stored(id) then Dangling
                                          else n.last))
  {
    hide Advance;
    if s.id.Is? {
      var id := s.id.value;
      var s1 := if id in n.sessions && n.sessions[id].keypair.Is? then s.(keypair := n.sessions[id].keypair) else s;
      match Advance(c, n.guid, s1, d)
      case Undefined =>
      case Updated(t, _, _) => assert n.sessions[id := s1][id := t] == n.sessions[id := t];
    }
  }

  /** What becomes of any text: nothing at all of the empty one and of one refused properly; undefined
      behaviour for one that ends on another key or gives no id; a receipt otherwise. */
  lemma TextReceived(c: Rsa, n: Node, text: string, d: Draw)
    ensures var ts, step := Tokens(text), ReceiveText(c, n, text, d);
            var onKey := ts != [] && KeyAt(SESSION_KEYS, ts, |ts| - 1);
            if text == [] || (onKey && Refusable(ts, ts[|ts| - 1])) then step == Stepped(n, [])
            else if onKey || !Used(SESSION_KEYS, ts, "SESSION_ID") then step == Fault
            else exists s :: SessRead(n.guid, n.peers.Keys, ts, s) && step == Receive(c, n, s, d)
  {
    hide Receive;
    if text != [] {
      SessionParseMeaning(n.guid, n.peers.Keys, text);
      hide ParseSession;
      hide Refusable;
      hide KeyAt;
      if ParseSession(n.guid, n.peers.Keys, text).SessOkay? {
        var s := ParseSession(n.guid, n.peers.Keys, text).s;
        IdIffUsed(Tokens(text), n.guid, n.peers.Keys, s);
        hide SessRead;
        hide Used;
        if !s.id.Is? {
          ReceiptMeaning(c, n, s, d);
        }
      }
    }
  }

  lemma IdIffUsed(ts: seq<string>, self: Guid, known: set<Guid>, s: Sess)
    requires SessRead(self, known, ts, s)
    ensures Used(SESSION_KEYS, ts, "SESSION_ID") <==> s.id.Is?
  {
    hide LastValue;
    ValueIffUsed(SESSION_KEYS, ts, "SESSION_ID", s.id);
  }

  predicate HasSessionBetween(n: Node, local: Guid, foreign: Guid) {
    exists id | id in n.sessions :: n.sessions[id].local == Is(local) && n.sessions[id].foreign == Is(foreign)
  }

  /** `user_start_session` goes past its checks. */
  predicate WillStart(n: Node, foreign: Guid) {
    n.guid in n.peers && foreign in n.peers && !HasSessionBetween(n, n.guid, foreign)
  }

  /** What `session_create` stores. */
  function Created(local: Guid, foreign: Guid, id: string): Sess {
    Sess(Is(local), Is(foreign), Null, Null, Null, Null, Is(0), Is(PreHandshake), Is(id), Is(local))
  }

  /** `user_start_session`, drawing `id` for the new session. */
  function StartSession(c: Rsa, n: Node, foreign: Guid, id: string, d: Draw): Step {
    if !WillStart(n, foreign) then Stepped(n, [])
    else Settle(c, n.(sessions := n.sessions[id := Created(n.guid, foreign, id)]), id, d)
  }

  function Shut(s: Sess): Sess {
    if s.state == Is(Connected) then s.(state := Is(Closing)) else s
  }

  /** The SIGINT branch of `signal_callback`. */
  function Shutdown(n: Node): Node {
    n.(sessions := map id | id in n.sessions :: Shut(n.sessions[id]))
  }

  /** `user_start_session` creates and offers a session exactly when the peer knows itself and the other
      one and no stored session has these two ends, whatever else is stored. Otherwise nothing happens. */
  lemma StartMeaning(c: Rsa, n: Node, foreign: Guid, id: string, d: Draw)
    ensures var ready := && n.guid in n.peers && foreign in n.peers
                         && forall x | x in n.sessions ::
                              !(n.sessions[x].local == Is(n.guid) && n.sessions[x].foreign == Is(foreign));
            StartSession(c, n, foreign, id, d) ==
            if ready then
              var pub := c.pub(d.key);
              var s := Sess(Is(n.guid), Is(foreign), Is(d.key), Is(pub), Null, Null, Is(0),
                            Is(PublicKeyExchange), Is(id), Is(n.guid));
              Stepped(n.(sessions := n.sessions[id := s]),
                      [Packet(foreign, Wire(n.guid, foreign, "(null)", 4, id, n.guid, pub, "(null)", 0))])
            else Stepped(n, [])
  {
    if WillStart(n, foreign) {
      var s := Created(n.guid, foreign, id);
      var pub := c.pub(d.key);
      var s1 := s.(keypair := Is(d.key), localPub := Is(pub), state := Is(PublicKeyExchange));
      assert Advance(c, n.guid, s, d) ==
             Updated(s1, [Packet(foreign, Wire(n.guid, foreign, "(null)", 4, id, n.guid, pub, "(null)", 0))], false);
      assert n.sessions[id := s][id := s1] == n.sessions[id := s1];
    }
  }

  /** SIGINT closes every connected session, and changes nothing else. */
  lemma ShutdownCloses(n: Node)
    ensures var m := Shutdown(n);
            && m.guid == n.guid && m.peers == n.peers && m.last == n.last && m.sessions.Keys == n.sessions.Keys
            && forall id | id in n.sessions ::
                 var s := n.sessions[id];
                 m.sessions[id] == if s.state == Is(Connected) then s.(state := Is(Closing)) else s
  {
  }

  lemma SettleIgnoresPeers(c: Rsa, n: Node, peers: map<Guid, PeerRec>, id: string, d: Draw)
    requires id in n.sessions
    ensures Settle(c, n.(peers := peers), id, d) ==
            match Settle(c, n, id, d)
            case Fault => Fault
            case Stepped(n1, sent) => Stepped(n1.(peers := peers), sent)
  {
  }

  /** A step of a session takes nothing from the peerstore and leaves it alone. */
  lemma PeersUntouched(c: Rsa, n: Node, peers: map<Guid, PeerRec>, s: Sess, d: Draw)
    ensures Receive(c, n.(peers := peers), s, d) ==
            match Receive(c, n, s, d)
            case Fault => Fault
            case Stepped(n1, sent) => Stepped(n1.(peers := peers), sent)
  {
  }

  // ---- pulses ----

  /** The fields that the checks of `multicast_serialization_process` read are set. */
  predicate Complete(p: Pulse) {
    p.guid.Is? && p.command.Is? && p.port.Is?
  }

  /** And so are the other two. */
  predicate Full(p: Pulse) {
    Complete(p) && p.securePort != Unset && p.peerstring != Unset
  }

  /** Everything `peerstore_update_peer` frees of a record has been set. */
  predicate Replaceable(r: PeerRec) {
    r.command != Unset && r.port != Unset && r.securePort != Unset && r.peerstring != Unset
  }

  /** Taking in the pulse reads and frees nothing that is unset: a new guid takes a complete pulse, a
      stored one a full pulse and a record that came from one. */
  predicate Takeable(peers: map<Guid, PeerRec>, p: Pulse) {
    Complete(p) && (p.guid.value in peers ==> Full(p) && Replaceable(peers[p.guid.value]))
  }

  /** The peerstore after one complete pulse: a new record, or the old one updated but for its ip. */
  function Absorbed(peers: map<Guid, PeerRec>, p: Pulse, ip: string): map<Guid, PeerRec>
    requires Complete(p)
  {
    var guid := p.guid.value;
    var keptIp := if guid in peers then peers[guid].ip else ip;
    peers[guid := PeerRec(p.command, keptIp, p.port, p.securePort, p.peerstring)]
  }

  /** `multicast_serialization_process`: the new peerstore, or None for undefined behaviour. */
  function HearPulse(peers: map<Guid, PeerRec>, text: string, ip: string): Option<map<Guid, PeerRec>> {
    match ParsePulse(text)
    case PulseOkay(p) => if Takeable(peers, p) then Some(Absorbed(peers, p, ip)) else None
    case PulseFault => None
    case _ => Some(peers)
  }

  /** What it takes of the tokens of a message, and of the peerstore, to handle it. */
  ghost predicate Hearable(peers: map<Guid, PeerRec>, ts: seq<string>) {
    if ts == [] then true
    else if KeyAt(PULSE_KEYS, ts, |ts| - 1) then PulseFreeable(ts, ts[|ts| - 1])
    else
      && Used(PULSE_KEYS, ts, "GUID") && Used(PULSE_KEYS, ts, "COMMAND") && Used(PULSE_KEYS, ts, "TPORT")
      && forall g: Guid | g in peers && LastValue(PULSE_KEYS, ts, Key("GUID"), Is(g)) ::
           && Used(PULSE_KEYS, ts, "SECUREPORT") && Used(PULSE_KEYS, ts, "PEERAGE")
           && peers[g].command != Unset && peers[g].port != Unset
           && peers[g].securePort != Unset && peers[g].peerstring != Unset
  }

  /** A message is handled without undefined behaviour if and only if it ends on a key and what is then
      freed has been set, or it gives a guid, a command and a port, and, if that guid is stored already,
      the other two fields as well and the stored record had them all. */
  lemma HearingDefinedIff(peers: map<Guid, PeerRec>, text: string, ip: string)
    ensures HearPulse(peers, text, ip).Some? <==> Hearable(peers, Tokens(text))
  {
    var ts := Tokens(text);
    if ts != [] {
      PulseParseMeaning(text);
      if ParsePulse(text).PulseOkay? {
        var p := ParsePulse(text).pulse;
        PulseFieldsUsed(ts, p);
        forall g: Guid
          ensures LastValue(PULSE_KEYS, ts, Key("GUID"), Is(g)) <==> p.guid == Is(g)
        {
          if LastValue(PULSE_KEYS, ts, Key("GUID"), Is(g)) {
            OneLastValue(PULSE_KEYS, ts, Key("GUID"), Is(g), p.guid);
          }
        }
      }
    }
  }

  /** The program hears a pulse that lacks its guid, passes it as S_OKAY and reads the missing guid. */
  lemma PulseWithoutGuidBreaks(peers: map<Guid, PeerRec>, ip: string)
    ensures HearPulse(peers, "COMMAND:PULSE:", ip).None?
  {
    PulseWithoutGuid();
  }

  // ---- full pulses ----

  /** A message that is refused properly or is a full pulse. */
  predicate Clean(text: string) {
    match ParsePulse(text)
    case PulseOkay(p) => Full(p)
    case PulseFault => false
    case _ => true
  }

  predicate AllReplaceable(peers: map<Guid, PeerRec>) {
    forall g | g in peers :: Replaceable(peers[g])
  }

  /** Where only full pulses have been heard, another one does no harm and leaves it so. */
  lemma CleanHeard(peers: map<Guid, PeerRec>, text: string, ip: string)
    requires AllReplaceable(peers) && Clean(text)
    ensures HearPulse(peers, text, ip).Some? && AllReplaceable(HearPulse(peers, text, ip).value)
  {
  }
}
