/** secure_channel.c and the messages typed into a session (userinput.c). */
module SecureChannel {
  import opened Cells
  import opened Records
  import opened Generators
  import opened Network
  import opened Ledger
  import opened Agreement
  import opened Bytes
  import opened Peers
  import opened Sessions
  import opened Process
  import opened Base64
  import opened Des

  /** A C string as the bytes in memory, its NUL included. */
  function CBytes(s: string): (b: seq<Byte>)
    ensures |b| == |s| + 1 && b[|s|] == 0
    ensures forall i | 0 <= i < |s| :: b[i] == (s[i] as int % 256) as Byte
  {
    seq(|s|, i requires 0 <= i < |s| => (s[i] as int % 256) as Byte) + [0]
  }

  /** `s` has a secret DES can take its 8 key bytes from. */
  predicate Keyed(s: Sess) {
    s.secret.Is? && |s.secret.value| >= 7
  }

  // ---- sending and listening, as values ----

  datatype Spoken = Spoken(d: Datagram) | NotSent | SendsUndefined

  /** `secure_channel_send` */
  ghost function Speak(e: BlockCipher, s: Sess, message: seq<Byte>): Spoken
    requires Blocks(e)
  {
    if !s.state.Is? then SendsUndefined
    else if s.state.value != Connected then NotSent
    else if !Keyed(s) || !s.foreign.Is? then SendsUndefined
    else Spoken(Datagram(s.foreign.value, Encrypted(e, CBytes(s.secret.value), message)))
  }

  datatype Shown = Shown(text: seq<Byte>) | Silent | HearsUndefined

  /** `secure_listener_callback`: whatever arrives is deciphered with the secret of `last_session`. */
  ghost function Listen(e: BlockCipher, n: Node, msg: string, beyond: nat -> Byte): Shown
    requires Blocks(e)
  {
    match n.last
    case NoLast => Silent
    case Dangling => HearsUndefined
    case Stored(id) => if id in n.sessions then Overhear(e, n.sessions[id], msg, beyond) else HearsUndefined
  }

  ghost function Overhear(e: BlockCipher, s: Sess, msg: string, beyond: nat -> Byte): Shown
    requires Blocks(e)
  {
    if !s.state.Is? then HearsUndefined
    else if s.state.value != Connected then Silent
    else if !Keyed(s) then HearsUndefined
    else
      var r := Decrypted(e, CBytes(s.secret.value), msg, beyond);
      if r.None? then HearsUndefined
      else
        var text := Text(r.value);
        if text.None? then HearsUndefined else Shown(text.value)
  }

  /** Exactly when something is sent, and to whom. A session that is not CONNECTED sends nothing. */
  lemma SpokenIff(e: BlockCipher, s: Sess, message: seq<Byte>)
    requires Blocks(e)
    ensures var r := Speak(e, s, message);
            && (r == NotSent <==> s.state.Is? && s.state != Is(Connected))
            && (r.Spoken? <==> s.state == Is(Connected) && s.foreign.Is? && s.secret.Is? && |s.secret.value| >= 7)
            && (r.Spoken? ==>
                  r.d.dest == s.foreign.value && r.d.text == Encrypted(e, CBytes(s.secret.value), message))
  {
    hide Encrypted;
    hide CBytes;
  }

  /** Exactly when something is shown: `last_session` is stored and CONNECTED, its secret has the bytes of
      a key, the text decodes, and what it deciphers to holds a NUL, before which it is shown. Nothing is
      shown without a `last_session`, or with one that is not CONNECTED. */
  lemma ShownIff(e: BlockCipher, n: Node, msg: string, beyond: nat -> Byte)
    requires Blocks(e)
    ensures var r := Listen(e, n, msg, beyond);
            var live := n.last.Stored? && n.last.id in n.sessions;
            && (r == Silent <==>
                  n.last == NoLast ||
                  (live && n.sessions[n.last.id].state.Is? && n.sessions[n.last.id].state != Is(Connected)))
            && (r.Shown? <==>
                  && live && n.sessions[n.last.id].state == Is(Connected) && n.sessions[n.last.id].secret.Is?
                  && |n.sessions[n.last.id].secret.value| >= 7
                  && var m := Decrypted(e, CBytes(n.sessions[n.last.id].secret.value), msg, beyond);
                     m.Some? && 0 in m.value)
            && (r.Shown? ==>
                  var m := Decrypted(e, CBytes(n.sessions[n.last.id].secret.value), msg, beyond).value;
                  0 !in r.text && r.text + [0] <= m)
  {
    hide Decrypted;
    hide CBytes;
    if n.last.Stored? && n.last.id in n.sessions && Keyed(n.sessions[n.last.id]) {
      var m := Decrypted(e, CBytes(n.sessions[n.last.id].secret.value), msg, beyond);
      if m.Some? {
        TextFound(m.value);
      }
    }
    hide Text;
  }

  // ---- the code ----

  /** `secure_channel_send` */
  method SecureChannelSend(e: BlockCipher, s: Session, peers: Peerstore, message: array<Byte>, msgLen: nat)
    returns (r: Spoken)
    requires Blocks(e) && Linked(s, peers) && msgLen <= message.Length
    ensures r == Speak(e, s.Value(), message[..msgLen])
    ensures s.currentState.Is? && s.currentState.value != Connected ==> r == NotSent
  {
    if !s.currentState.Is? {
      return SendsUndefined;
    }
    if s.currentState.value != Connected {
      return NotSent;
    }
    if !s.sharedSecret.Is? || |s.sharedSecret.value| < 7 || !s.foreignPeer.Is? {
      return SendsUndefined;
    }
    var buffer := DesEncrypt(e, CBytes(s.sharedSecret.value), message, msgLen);
    return Spoken(Datagram(s.foreignPeer.value.guid.value, buffer));
  }

  /** One turn of the loop of `user_interact_session`: the line goes out with its NUL. */
  method InteractOnce(e: BlockCipher, s: Session, peers: Peerstore, line: seq<Byte>) returns (r: Spoken)
    requires Blocks(e) && Linked(s, peers)
    ensures r == Speak(e, s.Value(), line + [0])
    ensures s.currentState.Is? && s.currentState.value != Connected ==> r == NotSent
  {
    if !s.currentState.Is? {
      return SendsUndefined;
    }
    if s.currentState.value != Connected {
      return NotSent;
    }
    var outmsg := new Byte[|line| + 1](_ => 0);
    forall k | 0 <= k < |line| {
      outmsg[k] := line[k];
    }
    assert outmsg[..|line| + 1] == line + [0];
    r := SecureChannelSend(e, s, peers, outmsg, |line| + 1);
  }

  /** `secure_listener_callback`; `last_session` is a live session or NULL. */
  method SecureListenerCallback(e: BlockCipher, w: Whisp, msg: string, beyond: nat -> Byte) returns (r: Shown)
    requires Blocks(e) && w.Valid() && w.LastView() != Dangling
    ensures r == Listen(e, w.NodeView(), msg, beyond)
    ensures w.last == null || (w.last.currentState.Is? && w.last.currentState.value != Connected) ==> r == Silent
  {
    hide Decrypted;
    if w.last == null {
      return Silent;
    }
    assert w.sessions.Filed(w.last);
    r := Decipher(e, w.last, msg, beyond);
  }

  method Decipher(e: BlockCipher, s: Session, msg: string, beyond: nat -> Byte) returns (r: Shown)
    requires Blocks(e)
    ensures r == Overhear(e, s.Value(), msg, beyond)
  {
    if !s.currentState.Is? {
      return HearsUndefined;
    }
    if s.currentState.value != Connected {
      return Silent;
    }
    if !s.sharedSecret.Is? || |s.sharedSecret.value| < 7 {
      return HearsUndefined;
    }
    var decrypted := DesDecrypt(e, CBytes(s.sharedSecret.value), msg, beyond);
    if decrypted.None? {
      return HearsUndefined;
    }
    var text := Text(decrypted.value);
    return if text.None? then HearsUndefined else Shown(text.value);
  }

  // ---- messages over whole runs ----

  /** A session that has connected by step `j` still holds, at step `k`, the generated secret it was
      connected with. */
  lemma SecretKept(c: Rsa, ss: seq<System>, acts: seq<Action>, j: nat, k: nat, g: Guid, id: string)
    requires Lawful(c) && IsRun(c, ss, acts) && j <= k < |ss|
    requires g in ss[j].nodes && id in ss[j].nodes[g].sessions && Settled(ss[j].nodes[g].sessions[id])
    ensures Keyed(ss[j].nodes[g].sessions[id])
    ensures g in ss[k].nodes && id in ss[k].nodes[g].sessions && Settled(ss[k].nodes[g].sessions[id])
    ensures ss[k].nodes[g].sessions[id].secret == ss[j].nodes[g].sessions[id].secret
  {
    SettledForGood(c, ss, acts, j, k, g, id);
    SecretAgreement(c, ss, acts, j, g, g, id);
    var text := ss[j].nodes[g].sessions[id].secret.value;
    var i :| 0 <= i < j && DrewSecret(ss[i], acts[i], id, text);
    SecretShape(acts[i].draw.r, acts[i].draw.l, acts[i].draw.n);
  }

  /** The listener at `n` deciphers with a session whose masks agree with those of `s` on the text. */
  ghost predicate HearsRightly(e: BlockCipher, s: Sess, n: Node, text: seq<Byte>)
    requires Blocks(e) && Keyed(s)
  {
    n.last.Stored? && n.last.id in n.sessions && n.sessions[n.last.id].state == Is(Connected) &&
    Keyed(n.sessions[n.last.id]) &&
    MasksAgree(e, KeyBlock(e, CBytes(s.secret.value)), KeyBlock(e, CBytes(n.sessions[n.last.id].secret.value)), text)
  }

  lemma OverheardIff(e: BlockCipher, s: Sess, t: Sess, text: seq<Byte>, beyond: nat -> Byte)
    requires Blocks(e) && Keyed(s) && Keyed(t) && t.state == Is(Connected) && 0 !in text
    ensures Overhear(e, t, Encrypted(e, CBytes(s.secret.value), text + [0]), beyond) == Shown(text) <==>
            MasksAgree(e, KeyBlock(e, CBytes(s.secret.value)), KeyBlock(e, CBytes(t.secret.value)), text)
  {
    ReadBackExactly(e, CBytes(s.secret.value), CBytes(t.secret.value), text, beyond);
    hide MasksAgree;
    hide Decrypted;
    hide Encrypted;
  }

  /** What the listener makes of a text another session sent. */
  lemma HeardAs(e: BlockCipher, s: Sess, n: Node, text: seq<Byte>, beyond: nat -> Byte)
    requires Blocks(e) && Keyed(s) && s.state == Is(Connected) && s.foreign.Is? && 0 !in text
    requires n.last.Stored? ==>
               n.last.id in n.sessions && Settled(n.sessions[n.last.id]) && Keyed(n.sessions[n.last.id])
    ensures var sent := Speak(e, s, text + [0]);
            && sent.Spoken? && sent.d.dest == s.foreign.value
            && (Listen(e, n, sent.d.text, beyond) == Shown(text) <==> HearsRightly(e, s, n, text))
            && (n.last == NoLast || (n.last.Stored? && n.sessions[n.last.id].state != Is(Connected)) ==>
                  Listen(e, n, sent.d.text, beyond) == Silent)
  {
    hide MasksAgree;
    if n.last.Stored? && n.sessions[n.last.id].state == Is(Connected) {
      OverheardIff(e, s, n.sessions[n.last.id], text, beyond);
    }
    hide Overhear;
    hide Encrypted;
  }

  /** Whatever `last_session` is at a peer, its secret has the bytes DES takes. */
  lemma LastIsKeyed(c: Rsa, ss: seq<System>, acts: seq<Action>, k: nat, h: Guid)
    requires Lawful(c) && IsRun(c, ss, acts) && k < |ss| && h in ss[k].nodes
    ensures var n := ss[k].nodes[h];
            n.last == NoLast || (n.last.Stored? && n.last.id in n.sessions && Settled(n.sessions[n.last.id])
                                 && Keyed(n.sessions[n.last.id]))
  {
    LastNeverDangles(c, ss, acts, k, h);
    var n := ss[k].nodes[h];
    if n.last.Stored? {
      SecretKept(c, ss, acts, k, k, h, n.last.id);
    }
  }

  /** Exactly when a text sent on a connected session at step `j` is shown as typed at the other end at
      step `k`: when that peer has resolved a session, which is still connected, and this session's
      masks agree on the text with those of the one the text was sent on. With no session resolved, or
      the last one closing, nothing is shown. */
  lemma MessageShownIff(c: Rsa, e: BlockCipher, ss: seq<System>, acts: seq<Action>, j: nat, k: nat,
                        g: Guid, h: Guid, id: string, text: seq<Byte>, beyond: nat -> Byte)
    requires Lawful(c) && Blocks(e) && IsRun(c, ss, acts) && j <= k < |ss| && 0 !in text
    requires g in ss[j].nodes && id in ss[j].nodes[g].sessions
    requires ss[j].nodes[g].sessions[id].state == Is(Connected) && ss[j].nodes[g].sessions[id].foreign == Is(h)
    requires h in ss[k].nodes
    ensures var s, n := ss[j].nodes[g].sessions[id], ss[k].nodes[h];
            var sent := Speak(e, s, text + [0]);
            && Keyed(s) && sent.Spoken? && sent.d.dest == h
            && (Listen(e, n, sent.d.text, beyond) == Shown(text) <==> HearsRightly(e, s, n, text))
            && (n.last == NoLast || (n.last.Stored? && n.last.id in n.sessions
                                     && n.sessions[n.last.id].state == Is(Closing)) ==>
                  Listen(e, n, sent.d.text, beyond) == Silent)
  {
    hide IsRun;
    hide Lawful;
    SecretKept(c, ss, acts, j, j, g, id);
    LastIsKeyed(c, ss, acts, k, h);
    HeardAs(e, ss[j].nodes[g].sessions[id], ss[k].nodes[h], text, beyond);
    hide Speak;
    hide Listen;
    hide HearsRightly;
  }

  /** A text sent on a connected session is shown as typed by the peer at its other end, whenever it
      arrives there, as long as that peer's last resolved session is this one and is open. */
  lemma MessageDelivered(c: Rsa, e: BlockCipher, ss: seq<System>, acts: seq<Action>, j: nat, k: nat,
                         g: Guid, h: Guid, id: string, text: seq<Byte>, beyond: nat -> Byte)
    requires Lawful(c) && Blocks(e) && IsRun(c, ss, acts) && j <= k < |ss| && 0 !in text
    requires g in ss[j].nodes && id in ss[j].nodes[g].sessions
    requires ss[j].nodes[g].sessions[id].state == Is(Connected) && ss[j].nodes[g].sessions[id].foreign == Is(h)
    requires h in ss[k].nodes && ss[k].nodes[h].last == Stored(id) && id in ss[k].nodes[h].sessions
    requires ss[k].nodes[h].sessions[id].state == Is(Connected)
    ensures var sent := Speak(e, ss[j].nodes[g].sessions[id], text + [0]);
            sent.Spoken? && sent.d.dest == h && Listen(e, ss[k].nodes[h], sent.d.text, beyond) == Shown(text)
  {
    hide IsRun;
    hide Lawful;
    SecretKept(c, ss, acts, j, k, g, id);
    SecretAgreement(c, ss, acts, k, g, h, id);
    MessageShownIff(c, e, ss, acts, j, k, g, h, id, text, beyond);
    LastIsKeyed(c, ss, acts, k, h);
    hide Speak;
    hide Listen;
  }

  /** A text sent by `s` is shown as typed at `n`. */
  ghost predicate ShownAsTyped(e: BlockCipher, s: Sess, n: Node, text: seq<Byte>, beyond: nat -> Byte)
    requires Blocks(e)
  {
    var sent := Speak(e, s, text + [0]);
    sent.Spoken? && Listen(e, n, sent.d.text, beyond) == Shown(text)
  }

  /** If the peer has resolved the session `id'` last and that is connected, then texts sent on `id` are
      shown as typed under every cipher if and only if the key bytes of the two secrets agree. */
  lemma ShownUnderEveryCipherIff(c: Rsa, ss: seq<System>, acts: seq<Action>, j: nat, k: nat,
                                 g: Guid, h: Guid, id: string, id': string)
    requires Lawful(c) && IsRun(c, ss, acts) && j <= k < |ss|
    requires g in ss[j].nodes && id in ss[j].nodes[g].sessions
    requires ss[j].nodes[g].sessions[id].state == Is(Connected) && ss[j].nodes[g].sessions[id].foreign == Is(h)
    requires h in ss[k].nodes && ss[k].nodes[h].last == Stored(id') && id' in ss[k].nodes[h].sessions
    requires ss[k].nodes[h].sessions[id'].state == Is(Connected)
    ensures var s, t := ss[j].nodes[g].sessions[id], ss[k].nodes[h].sessions[id'];
            Keyed(s) && Keyed(t)
            && ((forall e, text, beyond | Blocks(e) && 0 !in text :: ShownAsTyped(e, s, ss[k].nodes[h], text, beyond))
                <==> CBytes(s.secret.value)[..8] == CBytes(t.secret.value)[..8])
  {
    var s, n := ss[j].nodes[g].sessions[id], ss[k].nodes[h];
    var t := n.sessions[id'];
    hide IsRun;
    hide Lawful;
    SecretKept(c, ss, acts, j, j, g, id);
    LastIsKeyed(c, ss, acts, k, h);
    var x, y := CBytes(s.secret.value), CBytes(t.secret.value);
    forall e, text, beyond | Blocks(e) && 0 !in text
      ensures ShownAsTyped(e, s, n, text, beyond) == ReadBack(e, x, y, text, beyond)
    {
      HeardAs(e, s, n, text, beyond);
      ReadBackExactly(e, x, y, text, beyond);
    }
    ReadBackIff(x, y);
  }

  /** Once a session is CLOSING, nothing more is sent on it. */
  lemma NothingSentOnceClosing(c: Rsa, e: BlockCipher, ss: seq<System>, acts: seq<Action>, j: nat, k: nat,
                               g: Guid, id: string, message: seq<Byte>)
    requires Lawful(c) && Blocks(e) && IsRun(c, ss, acts) && j <= k < |ss|
    requires g in ss[j].nodes && id in ss[j].nodes[g].sessions && ss[j].nodes[g].sessions[id].state == Is(Closing)
    ensures g in ss[k].nodes && id in ss[k].nodes[g].sessions
    ensures Speak(e, ss[k].nodes[g].sessions[id], message) == NotSent
  {
    hide IsRun;
    hide Lawful;
    ClosingAbsorbs(c, ss, acts, j, k, g, id);
    SpokenIff(e, ss[k].nodes[g].sessions[id], message);
    hide Speak;
  }

  /** After SIGINT nothing more is sent on any session that was connected or closing at its peer, and
      nothing is shown there for as long as one of them is the last resolved. */
  lemma QuietAfterInterrupt(c: Rsa, e: BlockCipher, ss: seq<System>, acts: seq<Action>, j: nat, k: nat,
                            g: Guid, id: string, message: seq<Byte>, msg: string, beyond: nat -> Byte)
    requires Lawful(c) && Blocks(e) && IsRun(c, ss, acts) && j < k < |ss| && j < |acts| && acts[j] == Interrupt(g)
    requires g in ss[j].nodes && id in ss[j].nodes[g].sessions && Settled(ss[j].nodes[g].sessions[id])
    ensures g in ss[k].nodes && id in ss[k].nodes[g].sessions
    ensures Speak(e, ss[k].nodes[g].sessions[id], message) == NotSent
    ensures ss[k].nodes[g].last == Stored(id) ==> Listen(e, ss[k].nodes[g], msg, beyond) == Silent
  {
    hide IsRun;
    hide Lawful;
    if ss[j].nodes[g].sessions[id].state == Is(Connected) {
      InterruptCloses(c, ss, acts, j, k, g, id);
    } else {
      ClosingAbsorbs(c, ss, acts, j, k, g, id);
    }
    SpokenIff(e, ss[k].nodes[g].sessions[id], message);
    ShownIff(e, ss[k].nodes[g], msg, beyond);
    hide Speak;
    hide Listen;
  }
}
