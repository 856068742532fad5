/** The serialisers and deserialisers on char buffers and on the structs they fill. */
module Serialization {
  import opened Cells
  import opened CText
  import opened Strtok
  import opened Records
  import opened Frames
  import opened Generators
  import opened Handshake
  import opened Peers
  import opened Sessions

  // ---- printing ----

  /** Copy `text` into the buffer at `at`. */
  method Emit(buf: array<char>, at: nat, text: string) returns (next: nat)
    requires at + |text| <= buf.Length
    modifies buf
    ensures next == at + |text| && buf[..next] == old(buf[..at]) + text
  {
    var i := 0;
    while i < |text|
      invariant 0 <= i <= |text|
      invariant buf[..at + i] == old(buf[..at]) + text[..i]
    {
      buf[at + i] := text[i];
      i := i + 1;
    }
    assert text[..i] == text;
    next := at + i;
  }

  lemma {:induction false} PairsLengthSplit(kvs: seq<(string, string)>, k: nat)
    requires k <= |kvs|
    ensures PairsLength(kvs) == PairsLength(kvs[..k]) + PairsLength(kvs[k..])
  {
    if k > 0 {
      PairsLengthSplit(kvs[1..], k - 1);
      assert kvs[1..][..k - 1] == kvs[..k][1..] && kvs[1..][k - 1..] == kvs[k..];
    } else {
      assert kvs[..0] == [] && kvs[0..] == kvs;
    }
  }

  /** `sprintf` of a "KEY:%s:KEY:%s:..." format into a new buffer of `size` chars. */
  method SprintfPairs(kvs: seq<(string, string)>, size: nat) returns (buf: array<char>, len: nat)
    requires PairsLength(kvs) < size
    ensures fresh(buf) && buf.Length == size && len == |Frame(kvs)| < size
    ensures buf[..len] == Frame(kvs) && buf[len] == '\0'
  {
    buf := new char[size](_ => '\0');
    len := 0;
    var k := 0;
    FrameLength(kvs);
    while k < |kvs|
      invariant 0 <= k <= |kvs| && len == PairsLength(kvs[..k])
      invariant len < size && buf[..len] == Frame(kvs[..k])
    {
      PairsLengthSplit(kvs, k);
      PairsLengthSplit(kvs, k + 1);
      assert kvs[..k + 1] == kvs[..k] + [kvs[k]];
      FrameSnoc(kvs[..k], kvs[k]);
      FrameLength(kvs[..k]);
      FrameLength(kvs[..k + 1]);
      len := Emit(buf, len, kvs[k].0);
      len := Emit(buf, len, ":");
      len := Emit(buf, len, kvs[k].1);
      len := Emit(buf, len, ":");
      k := k + 1;
    }
    assert kvs[..k] == kvs;
    buf[len] := '\0';
  }

  /** `serialize_data`: print into 1024 chars on the stack, then copy out what was printed. */
  method SerializeData(guid: string, command: string, port: string, securePort: string, peerage: string)
    returns (out: array<char>, s: nat)
    requires 43 + |guid| + |command| + |port| + |securePort| + |peerage| < 1024
    ensures fresh(out) && s == out.Length > 0
    ensures out[..] == Frame(PulsePairs(guid, command, port, securePort, peerage))
  {
    var kvs := PulsePairs(guid, command, port, securePort, peerage);
    PulseFrameLength(guid, command, port, securePort, peerage);
    FrameLength(kvs);
    var buffer;
    buffer, s := SprintfPairs(kvs, 1024);
    out := new char[s];
    var i := 0;
    while i < s
      invariant 0 <= i <= s && out[..i] == buffer[..i] && buffer[..s] == Frame(kvs)
    {
      out[i] := buffer[i];
      i := i + 1;
    }
  }

  // ---- the pulses whisp sends ----

  /** `random_in_range`, `r` being what `rand` returned. */
  function RandomInRange(min: nat, max: nat, r: nat): (k: nat)
    requires min <= max
    ensures min <= k <= max
  {
    min + r % (max - min + 1)
  }

  /** The number drawn is as far from the lower bound as what `rand` returned is from a multiple of the
      size of the range. */
  lemma RandomRemainder(min: nat, max: nat, r: nat) returns (q: nat)
    requires min <= max
    ensures r == q * (max - min + 1) + (RandomInRange(min, max, r) - min)
  {
    q := r / (max - min + 1);
  }

  /** Every pulse whisp sends fits the 1024 characters it is printed into with room to spare, and reads
      as a full pulse to whoever hears it. */
  lemma SentPulse(guid: string, port: nat, securePort: nat)
    requires Generated(guid) && port < 65536 && securePort < 65536
    ensures var text := Frame(PulsePairs(guid, "PULSE", PrintInt(port), PrintInt(securePort), "PEER-NULL"));
            && |text| <= 115
            && ParsePulse(text) == PulseOkay(Pulse(Is(guid), Is("PULSE"), Is(PrintInt(port)), Is(PrintInt(securePort)),
                                                   Is("PEER-NULL")))
            && Clean(text)
  {
    GeneratedShape(guid);
    PrintIntSafe(port);
    PrintIntSafe(securePort);
    assert TenTo(5) == 100000;
    DecimalLength(port, 5);
    DecimalLength(securePort, 5);
    PulseFrameLength(guid, "PULSE", PrintInt(port), PrintInt(securePort), "PEER-NULL");
    PulseRoundTrip(guid, "PULSE", PrintInt(port), PrintInt(securePort), "PEER-NULL");
  }

  /** `multicast_pulse` up to the send, the ports being those `generate_ports` drew from `r` and `r'`. */
  method MulticastPulse(guid: string, r: nat, r': nat) returns (buffer: array<char>, len: nat)
    requires Generated(guid)
    ensures fresh(buffer) && len == buffer.Length <= 115
    ensures Clean(buffer[..])
    ensures ParsePulse(buffer[..]) ==
            PulseOkay(Pulse(Is(guid), Is("PULSE"), Is(PrintInt(RandomInRange(49152, 65535, r))),
                            Is(PrintInt(RandomInRange(41390, 51952, r'))), Is("PEER-NULL")))
  {
    hide ParsePulse;
    hide Clean;
    var port, securePort := RandomInRange(49152, 65535, r), RandomInRange(41390, 51952, r');
    SentPulse(guid, port, securePort);
    PulseFrameLength(guid, "PULSE", PrintInt(port), PrintInt(securePort), "PEER-NULL");
    buffer, len := SerializeData(guid, "PULSE", PrintInt(port), PrintInt(securePort), "PEER-NULL");
  }

  /** The arguments of the `sprintf` in `serialize_session_data`, NULL texts as glibc prints them. */
  method WireFor(s: Session, ghost store: Peerstore) returns (w: Wire)
    requires Linked(s, store) && Printable(s.Value())
    ensures w == WireOf(s.Value())
  {
    var secret := if s.sharedSecret.Is? then s.sharedSecret.value else "(null)";
    var id := if s.sessionId.Is? then s.sessionId.value else "(null)";
    var origin := if s.originGuid.Is? then s.originGuid.value else "(null)";
    var localPub := if s.localPublicKey.Is? then s.localPublicKey.value else "(null)";
    var foreignPub := if s.foreignPublicKey.Is? then s.foreignPublicKey.value else "(null)";
    w := Wire(s.localPeer.value.guid.value, s.foreignPeer.value.guid.value, secret, Code(s.currentState.value),
              id, origin, localPub, foreignPub, AsInt32(s.sharedSecretLen.value));
  }

  /** `serialize_session_data`: print into 6000 chars. */
  method SerializeSessionData(s: Session, ghost store: Peerstore) returns (buf: array<char>, len: nat)
    requires Linked(s, store)
    requires Printable(s.Value()) && |SessionFrame(WireOf(s.Value()))| < 6000
    ensures fresh(buf) && len < buf.Length == 6000 && buf[len] == '\0'
    ensures buf[..len] == SessionFrame(WireOf(s.Value()))
  {
    var w := WireFor(s, store);
    FrameLength(SessionPairs(w));
    buf, len := SprintfPairs(SessionPairs(w), 6000);
  }

  // ---- parsing pulses ----

  datatype Status = Okay | Unknown | Malformed | Undefined

  /** The five `if`s of the loop, with the value already taken: `t` names one key at most. */
  method SetPulseField(peer: RawPeer, t: string, value: string)
    modifies peer`guid, peer`command, peer`port, peer`securePort, peer`peerstring
    ensures peer.ThePulse() == AssignPulse(old(peer.ThePulse()), (t, value))
  {
    if t == "GUID" { peer.guid := Is(value); }
    if t == "COMMAND" { peer.command := Is(value); }
    if t == "TPORT" { peer.port := Is(value); }
    if t == "SECUREPORT" { peer.securePort := Is(value); }
    if t == "PEERAGE" { peer.peerstring := Is(value); }
  }

  /** The tokens from `t` on, `save` being where the next one is looked for. */
  ghost function Rest(buf: array<char>, t: int, save: nat, end: nat): seq<string>
    requires t < buf.Length && save <= end <= buf.Length
    reads buf
  {
    if t < 0 then [] else [CString(buf[t..])] + Tokens(buf[save..end])
  }

  /** What the loop makes of the record and the tokens still to come: the pulse and the key the message
      ends on, if it does. */
  ghost function PulseFromHere(p: Pulse, rest: seq<string>): (Pulse, Option<string>) {
    (AssignPulses(p, Read(PULSE_KEYS, rest).pairs), Read(PULSE_KEYS, rest).stray)
  }

  lemma ReadPulseOnward(p: Pulse, key: string, after: seq<string>)
    ensures key !in PULSE_KEYS ==> PulseFromHere(p, [key] + after) == PulseFromHere(p, after)
    ensures key in PULSE_KEYS && after == [] ==> PulseFromHere(p, [key] + after) == (p, Some(key))
    ensures key in PULSE_KEYS && after != [] ==>
        PulseFromHere(p, [key] + after) == PulseFromHere(AssignPulse(p, (key, after[0])), after[1..])
  {
    var rest := [key] + after;
    assert rest[1..] == after;
    if key in PULSE_KEYS && after != [] {
      assert rest[2..] == after[1..];
      var r := Read(PULSE_KEYS, rest);
      assert r.pairs[1..] == Read(PULSE_KEYS, after[1..]).pairs;
    }
  }

  /** One turn of the loop: `t` is the current token, the next ones are looked for from `save`. */
  method PulseTurn(peer: RawPeer, buf: array<char>, t: nat, save0: nat, ghost len: nat, ip: string)
    returns (stray: Option<string>, save: nat)
    requires t < buf.Length && Terminated(buf, save0, len)
    modifies buf, peer
    ensures save0 <= save <= len && Terminated(buf, save, len)
    ensures var before := PulseFromHere(old(peer.ThePulse()), old(Rest(buf, t, save0, len)));
            if stray.Some? then before == (peer.ThePulse(), stray)
            else before == PulseFromHere(peer.ThePulse(), Tokens(buf[save..len])) && peer.ip == Is(ip)
    ensures |Tokens(buf[save..len])| <= |Tokens(old(buf[save0..len]))|
  {
    var key := CString(buf[t..]);
    ReadPulseOnward(peer.ThePulse(), key, Tokens(buf[save0..len]));
    save := save0;
    if key in PULSE_KEYS {
      var v, next := StrtokR(buf, save0, len);
      save := next;
      if v == -1 {
        return Some(key), save;
      }
      SetPulseField(peer, key, CString(buf[v..]));
    }
    peer.ip := Is(ip);
    return None, save;
  }

  /** The branches of a key without a value: none of the fields they free is uninitialised. */
  predicate FreeFields(peer: RawPeer, t: string): (ok: bool)
    reads peer
    ensures ok == CanFree(peer.ThePulse(), t)
  {
    if t == "GUID" then true
    else if t == "COMMAND" then peer.guid != Unset
    else if t == "TPORT" then peer.guid != Unset && peer.command != Unset
    else peer.guid != Unset && peer.command != Unset && peer.port != Unset
  }

  /** `deserialize_data` on a NUL-terminated message whose length is its string length. */
  method DeserializeData(buf: array<char>, len: nat, ip: string) returns (status: Status, outpeer: RawPeer?)
    requires Terminated(buf, 0, len)
    modifies buf
    ensures match ParsePulse(old(buf[..len]))
            case PulseOkay(p) => status == Okay && outpeer != null && fresh(outpeer)
                                 && outpeer.ThePulse() == p && outpeer.ip == Is(ip)
            case PulseMalformed => status == Malformed && outpeer == null
            case PulseUnknown => status == Unknown && outpeer == null
            case PulseFault => status == Status.Undefined && outpeer == null
  {
    if len == 0 {
      return Malformed, null;
    }
    ghost var all := PulseFromHere(NO_PULSE, Tokens(buf[..len]));
    assert buf[0..len] == buf[..len];
    var t, save := StrtokR(buf, 0, len);
    if t == -1 {
      return Unknown, null;
    }
    hide Read;
    hide Tokens;
    hide AssignPulses;
    var peer := new RawPeer();
    while t != -1
      invariant -1 <= t < len && save <= len && Terminated(buf, save, len)
      invariant fresh(peer) && (t == -1 ==> peer.ip == Is(ip))
      invariant all == PulseFromHere(peer.ThePulse(), Rest(buf, t, save, len))
      decreases |Rest(buf, t, save, len)|
    {
      var stray;
      stray, save := PulseTurn(peer, buf, t, save, len, ip);
      if stray.Some? {
        return if FreeFields(peer, stray.value) then Malformed else Status.Undefined, null;
      }
      t, save := StrtokR(buf, save, len);
    }
    NothingLeft(peer.ThePulse());
    return Okay, peer;
  }

  lemma NothingLeft(p: Pulse)
    ensures PulseFromHere(p, []) == (p, None)
  {
  }

  // ---- parsing sessions ----

  datatype SessionStatus = SessionOkay | SessionMalformed | SessionUndefined

  /** Where a peer named on the wire goes: our own guid to the local side, any other to the foreign. */
  method PlacePeer(self: Guid, store: Peerstore, s: Session, value: string)
    requires store.Valid() && Linked(s, store)
    modifies s`localPeer, s`foreignPeer, s`local, s`foreign
    ensures Linked(s, store)
    ensures s.Value() == Placed(self, store.View().Keys, old(s.Value()), value)
  {
    var found, peer := store.CheckPeer(value);
    if value == self {
      if found {
        s.localPeer, s.local := Is(peer), Is(value);
      }
    } else {
      if found {
        s.foreignPeer, s.foreign := Is(peer), Is(value);
      }
    }
  }

  /** The seven keys that name no peer. */
  method SetOtherField(s: Session, t: string, value: string, ghost self: Guid, ghost known: set<Guid>)
    requires t != "LOCAL_PEER" && t != "FORIEGN_PEER"
    modifies s`sharedSecret, s`currentState, s`sessionId, s`originGuid, s`localPublicKey, s`foreignPublicKey,
             s`sharedSecretLen
    ensures s.Value() == AssignSession(self, known, old(s.Value()), (t, value))
  {
    if t == "SHARED_SECRET" {
      s.sharedSecret := Is(value);
    } else if t == "CURRENT_STATE" {
      s.currentState := Is(StateOf(Atoi(value)));
    } else if t == "SESSION_ID" {
      s.sessionId := Is(value);
    } else if t == "SESSION_ORIGIN_GUID" {
      s.originGuid := Is(value);
    } else if t == "LOCAL_PUBLIC_KEY" {
      s.localPublicKey := Is(value);
    } else if t == "FORIEGN_PUBLIC_KEY" {
      s.foreignPublicKey := Is(value);
    } else if t == "SHARED_SECRET_LEN" {
      s.sharedSecretLen := Is(AsSize(Atoi(value)));
    }
  }

  /** The nine `if`s of the loop, with the value already taken; `t` names one key at most. */
  method SetSessionField(self: Guid, store: Peerstore, s: Session, t: string, value: string)
    requires store.Valid() && Linked(s, store)
    modifies s
    ensures Linked(s, store)
    ensures s.Value() == AssignSession(self, store.View().Keys, old(s.Value()), (t, value))
  {
    if t == "LOCAL_PEER" || t == "FORIEGN_PEER" {
      PlacePeer(self, store, s, value);
    } else {
      SetOtherField(s, t, value, self, store.View().Keys);
    }
  }

  /** What is read from `rest` on top of `s`. */
  ghost function FromHere(self: Guid, known: set<Guid>, s: Sess, rest: seq<string>): (Sess, Option<string>) {
    (AssignSessions(self, known, s, Read(SESSION_KEYS, rest).pairs), Read(SESSION_KEYS, rest).stray)
  }

  lemma ReadOnward(self: Guid, known: set<Guid>, s: Sess, key: string, after: seq<string>)
    ensures key !in SESSION_KEYS ==> FromHere(self, known, s, [key] + after) == FromHere(self, known, s, after)
    ensures key in SESSION_KEYS && after == [] ==> FromHere(self, known, s, [key] + after) == (s, Some(key))
    ensures key in SESSION_KEYS && after != [] ==>
        FromHere(self, known, s, [key] + after) ==
        FromHere(self, known, AssignSession(self, known, s, (key, after[0])), after[1..])
  {
    var rest := [key] + after;
    assert rest[1..] == after;
    if key in SESSION_KEYS && after != [] {
      assert rest[2..] == after[1..];
      var r := Read(SESSION_KEYS, rest);
      assert r.pairs[1..] == Read(SESSION_KEYS, after[1..]).pairs;
    }
  }

  /** One turn of the loop: `t` is the current token, the next ones are looked for from `save`. */
  method SessionTurn(self: Guid, store: Peerstore, s: Session, buf: array<char>, t: nat, save0: nat, ghost len: nat)
    returns (stray: Option<string>, save: nat)
    requires t < buf.Length && Terminated(buf, save0, len) && store.Valid() && Linked(s, store)
    modifies buf, s
    ensures save0 <= save <= len && Terminated(buf, save, len) && Linked(s, store)
    ensures var known := store.View().Keys;
            var before := FromHere(self, known, old(s.Value()), old(Rest(buf, t, save0, len)));
            if stray.Some? then before == (s.Value(), stray)
            else before == FromHere(self, known, s.Value(), Tokens(buf[save..len]))
    ensures |Tokens(buf[save..len])| <= |Tokens(old(buf[save0..len]))|
  {
    var key := CString(buf[t..]);
    ReadOnward(self, store.View().Keys, s.Value(), key, Tokens(buf[save0..len]));
    if key in SESSION_KEYS {
      var v, next := StrtokR(buf, save0, len);
      if v == -1 {
        return Some(key), next;
      }
      var value := CString(buf[v..]);
      SetSessionField(self, store, s, key, value);
      return None, next;
    } else {
      return None, save0;
    }
  }

  /** The loop of `deserialize_session_data`; `stray` is the key the message ended on, if it did. */
  method SessionLoop(self: Guid, store: Peerstore, s: Session, buf: array<char>, t0: int, save0: nat, ghost len: nat)
    returns (stray: Option<string>)
    requires -1 <= t0 < len && Terminated(buf, save0, len) && store.Valid() && Linked(s, store)
    modifies buf, s
    ensures Linked(s, store)
    ensures FromHere(self, store.View().Keys, old(s.Value()), old(Rest(buf, t0, save0, len))) == (s.Value(), stray)
  {
    hide Linked;
    hide Peerstore.Valid;
    hide Peerstore.View;
    var t := t0;
    var save: nat := save0;
    ghost var known := store.View().Keys;
    ghost var all := FromHere(self, known, s.Value(), Rest(buf, t, save, len));
    while t != -1
      invariant -1 <= t < len && save <= len && Terminated(buf, save, len) && Linked(s, store)
      invariant all == FromHere(self, known, s.Value(), Rest(buf, t, save, len))
      decreases |Rest(buf, t, save, len)|
    {
      stray, save := SessionTurn(self, store, s, buf, t, save, len);
      if stray.Some? {
        return;
      }
      t, save := StrtokR(buf, save, len);
    }
    return None;
  }

  /** The branches of a key without a value: nothing they free is uninitialised, nothing they read is
      freed. */
  predicate FreeSession(s: Session, t: string): (ok: bool)
    reads s
    ensures ok == CanRefuse(s.Value(), t)
  {
    if t in {"LOCAL_PEER", "FORIEGN_PEER", "SHARED_SECRET"} then true
    else if t == "SESSION_ID" then s.sharedSecret != Unset
    else if t == "SESSION_ORIGIN_GUID" then s.sharedSecret != Unset && s.sessionId != Unset
    else false
  }

  /** `deserialize_session_data` on a NUL-terminated message whose length is its string length. A
      message without tokens is S_OKAY with nothing set. */
  method DeserializeSessionData(self: Guid, store: Peerstore, buf: array<char>, len: nat)
    returns (status: SessionStatus, outsession: Session?)
    requires Terminated(buf, 0, len) && store.Valid()
    modifies buf
    ensures match ParseSession(self, store.View().Keys, old(buf[..len]))
            case SessOkay(v) => status == SessionOkay && outsession != null && fresh(outsession)
                                && outsession.Value() == v && Linked(outsession, store)
            case SessMalformed => status == SessionMalformed && outsession == null
            case SessFault => status == SessionUndefined
  {
    if len == 0 {
      return SessionMalformed, null;
    }
    hide Linked;
    hide Peerstore.Valid;
    hide Peerstore.View;
    hide AssignSessions;
    hide Read;
    hide Tokens;
    assert buf[0..len] == buf[..len];
    var t, save := StrtokR(buf, 0, len);
    var s := new Session();
    var stray := SessionLoop(self, store, s, buf, t, save, len);
    if stray.Some? {
      return (if FreeSession(s, stray.value) then SessionMalformed else SessionUndefined), null;
    }
    return SessionOkay, s;
  }
}
