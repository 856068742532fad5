/**
 The inductive invariant. A ledger gives each session id its two ends, the keys and secret drawn for
 it so far, and its phase; it explains a system state when every stored session and every frame in
 flight is exactly what the ledger says, except that frames may have been lost and connected
 sessions closed.
 */
module Ledger {
  import opened Cells
  import opened CText
  import opened Records
  import opened Frames
  import opened Generators
  import opened Handshake
  import opened Network

  datatype Phase =
    | Offered                          // the origin waits, its public key is on the way
    | Answered(kb: Key)                // the responder waits, both public keys are on the way back
    | Sealed(kb: Key, draw: Draw)      // the origin is connected, the encrypted secret is on the way
    | Open(kb: Key, draw: Draw)        // both ends are connected

  datatype Entry = Entry(a: Guid, b: Guid, ka: Key, phase: Phase)

  type Book = map<string, Entry>

  function Cipher(c: Rsa, kb: Key, d: Draw): string {
    c.enc(c.pub(kb), SecretOf(d), d.padding)
  }

  // ---- what the ledger says is stored and in flight ----

  function OriginSess(c: Rsa, id: string, e: Entry): Sess {
    var s := Sess(Is(e.a), Is(e.b), Is(e.ka), Is(c.pub(e.ka)), Null, Null, Is(0),
                  Is(PublicKeyExchange), Is(id), Is(e.a));
    match e.phase
    case Offered => s
    case Answered(_) => s
    case Sealed(kb, d) =>
      s.(foreignPub := Is(c.pub(kb)), secret := Is(SecretOf(d)), secretLen := Is(|Cipher(c, kb, d)|),
         state := Is(Connected))
    case Open(kb, d) =>
      s.(foreignPub := Is(c.pub(kb)), secret := Is(SecretOf(d)), secretLen := Is(|Cipher(c, kb, d)|),
         state := Is(Connected))
  }

  function ResponderSess(c: Rsa, id: string, e: Entry): Sess
    requires !e.phase.Offered?
  {
    var s := Sess(Is(e.b), Is(e.a), Is(e.phase.kb), Is(c.pub(e.ka)), Is(c.pub(e.phase.kb)), Is("(null)"), Is(0),
                  Is(Handshaking), Is(id), Is(e.a));
    match e.phase
    case Answered(_) => s
    case Sealed(_, _) => s
    case Open(kb, d) =>
      s.(secret := Is(SecretOf(d)), secretLen := Is(|Cipher(c, kb, d)|), state := Is(Connected))
  }

  function InFlight(c: Rsa, id: string, e: Entry): Packet
    requires !e.phase.Open?
  {
    match e.phase
    case Offered =>
      Packet(e.b, Wire(e.a, e.b, "(null)", Code(PublicKeyExchange), id, e.a, c.pub(e.ka), "(null)", 0))
    case Answered(kb) =>
      Packet(e.a, Wire(e.b, e.a, "(null)", Code(Handshaking), id, e.a, c.pub(e.ka), c.pub(kb), 0))
    case Sealed(kb, d) =>
      Packet(e.b, Wire(e.a, e.b, Cipher(c, kb, d), Code(Connected), id, e.a, c.pub(e.ka), c.pub(kb),
                       |Cipher(c, kb, d)|))
  }

  predicate Settled(s: Sess) {
    s.state == Is(Connected) || s.state == Is(Closing)
  }

  /** `s` is `want`, or `want` is connected and `s` the same session closed. */
  predicate Matches(s: Sess, want: Sess) {
    s == want || (want.state == Is(Connected) && s == want.(state := Is(Closing)))
  }

  // ---- the parts of the invariant ----

  ghost predicate NodeOk(g: Guid, n: Node) {
    && n.guid == g && Generated(g)
    && (n.last == NoLast
        || (n.last.Stored? && n.last.id in n.sessions && Settled(n.sessions[n.last.id])))
  }

  ghost predicate NodesOk(nodes: map<Guid, Node>) {
    forall g | g in nodes :: NodeOk(g, nodes[g])
  }

  ghost predicate EntryOk(c: Rsa, nodes: map<Guid, Node>, id: string, e: Entry) {
    && e.a != e.b && e.a in nodes && e.b in nodes && Generated(id)
    && e.a in nodes[e.a].peers && e.b in nodes[e.a].peers
    && e.a in nodes[e.b].peers && e.b in nodes[e.b].peers
    && id in nodes[e.a].sessions && Matches(nodes[e.a].sessions[id], OriginSess(c, id, e))
    && (if e.phase.Offered? then id !in nodes[e.b].sessions
        else id in nodes[e.b].sessions && Matches(nodes[e.b].sessions[id], ResponderSess(c, id, e)))
  }

  ghost predicate EntriesOk(c: Rsa, nodes: map<Guid, Node>, book: Book) {
    forall id | id in book :: EntryOk(c, nodes, id, book[id])
  }

  /** Every stored session is on the ledger, at one of its own two ends. */
  ghost predicate Accounted(nodes: map<Guid, Node>, book: Book) {
    forall g, id | g in nodes && id in nodes[g].sessions :: id in book && (g == book[id].a || g == book[id].b)
  }

  ghost predicate PacketOk(c: Rsa, p: Packet, book: Book) {
    p.wire.id in book && !book[p.wire.id].phase.Open? && p == InFlight(c, p.wire.id, book[p.wire.id])
  }

  ghost predicate BagOk(c: Rsa, bag: seq<Packet>, book: Book) {
    && (forall i | 0 <= i < |bag| :: PacketOk(c, bag[i], book))
    && (forall i, j | 0 <= i < j < |bag| :: bag[i].wire.id != bag[j].wire.id)
  }

  predicate Carries(bag: seq<Packet>, id: string) {
    exists i | 0 <= i < |bag| :: bag[i].wire.id == id
  }

  /** Every unfinished session has its frame in flight. */
  ghost predicate NothingLost(bag: seq<Packet>, book: Book) {
    forall id | id in book && !book[id].phase.Open? :: Carries(bag, id)
  }

  predicate SameEnds(e: Entry, f: Entry) {
    e.a == f.a && e.b == f.b
  }

  /** No peer originated two sessions with the same foreign peer. */
  ghost predicate OnePerPair(book: Book) {
    forall i, j | i in book && j in book && SameEnds(book[i], book[j]) :: i == j
  }

  ghost predicate Explains(c: Rsa, book: Book, sys: System) {
    && NodesOk(sys.nodes)
    && EntriesOk(c, sys.nodes, book)
    && Accounted(sys.nodes, book)
    && BagOk(c, sys.bag, book)
    && OnePerPair(book)
  }

  // ---- what each frame does to its receiver ----

  lemma OfferReceived(c: Rsa, n: Node, id: string, e: Entry, d: Draw)
    requires n.guid == e.b && e.a != e.b && e.a in n.peers && e.b in n.peers
    requires e.phase.Offered? && id !in n.sessions
    ensures var e' := e.(phase := Answered(d.key));
            Receive(c, n, Orient(n.guid, n.peers.Keys, InFlight(c, id, e).wire), d) ==
            Stepped(n.(sessions := n.sessions[id := ResponderSess(c, id, e')]), [InFlight(c, id, e')])
  {
    var s := Orient(n.guid, n.peers.Keys, InFlight(c, id, e).wire);
    assert s == Sess(Is(e.b), Is(e.a), Unset, Is(c.pub(e.ka)), Is("(null)"), Is("(null)"), Is(0),
                     Is(PublicKeyExchange), Is(id), Is(e.a));
    var n1 := n.(sessions := n.sessions[id := s]);
    var e' := e.(phase := Answered(d.key));
    assert Advance(c, n.guid, s, d) == Updated(ResponderSess(c, id, e'), [InFlight(c, id, e')], false);
    assert n1.sessions[id := ResponderSess(c, id, e')] == n.sessions[id := ResponderSess(c, id, e')];
  }

  lemma SecretSealed(c: Rsa, s: Sess, id: string, e: Entry, d: Draw)
    requires Lawful(c) && e.phase.Answered?
    requires s == Sess(Is(e.a), Is(e.b), Is(e.ka), Is(c.pub(e.ka)), Is(c.pub(e.phase.kb)), Is("(null)"), Is(0),
                       Is(Handshaking), Is(id), Is(e.a))
    ensures var e' := e.(phase := Sealed(e.phase.kb, d));
            Advance(c, e.a, s, d) == Updated(OriginSess(c, id, e'), [InFlight(c, id, e')], true)
  {
    var e' := e.(phase := Sealed(e.phase.kb, d));
    var x := Cipher(c, e.phase.kb, d);
    CipherBounds(c, e.phase.kb, d);
    assert AsInt32(|x|) == |x|;
    var s1 := SealedSess(c, s, d);
    assert Printable(s1) && PacketOf(s1) == InFlight(c, id, e');
    var s2 := s1.(secret := Is(SecretOf(d)));
    assert s2 == OriginSess(c, id, e');
    assert Advance(c, e.a, s2, d) == Updated(s2, [], true);
    assert Seal(c, e.a, s, d) == Updated(s2, [PacketOf(s1)] + [], true);
  }

  lemma AnswerReceived(c: Rsa, n: Node, id: string, e: Entry, d: Draw)
    requires Lawful(c)
    requires n.guid == e.a && e.a != e.b && e.a in n.peers && e.b in n.peers
    requires e.phase.Answered? && id in n.sessions && n.sessions[id] == OriginSess(c, id, e)
    requires n.last != Stored(id)
    ensures var e' := e.(phase := Sealed(e.phase.kb, d));
            Receive(c, n, Orient(n.guid, n.peers.Keys, InFlight(c, id, e).wire), d) ==
            Stepped(n.(sessions := n.sessions[id := OriginSess(c, id, e')], last := Stored(id)), [InFlight(c, id, e')])
  {
    var s := Orient(n.guid, n.peers.Keys, InFlight(c, id, e).wire).(keypair := Is(e.ka));
    assert s == Sess(Is(e.a), Is(e.b), Is(e.ka), Is(c.pub(e.ka)), Is(c.pub(e.phase.kb)), Is("(null)"), Is(0),
                     Is(Handshaking), Is(id), Is(e.a));
    var n1 := n.(sessions := n.sessions[id := s]);
    var e' := e.(phase := Sealed(e.phase.kb, d));
    SecretSealed(c, s, id, e, d);
    assert n1.sessions[id := OriginSess(c, id, e')] == n.sessions[id := OriginSess(c, id, e')];
  }

  lemma SecretReceived(c: Rsa, n: Node, id: string, e: Entry, d: Draw)
    requires Lawful(c)
    requires n.guid == e.b && e.a != e.b && e.a in n.peers && e.b in n.peers
    requires e.phase.Sealed? && id in n.sessions && n.sessions[id] == ResponderSess(c, id, e)
    requires n.last != Stored(id)
    ensures var e' := e.(phase := Open(e.phase.kb, e.phase.draw));
            Receive(c, n, Orient(n.guid, n.peers.Keys, InFlight(c, id, e).wire), d) ==
            Stepped(n.(sessions := n.sessions[id := ResponderSess(c, id, e')], last := Stored(id)), [])
  {
    var x := Cipher(c, e.phase.kb, e.phase.draw);
    CipherBounds(c, e.phase.kb, e.phase.draw);
    var s := Orient(n.guid, n.peers.Keys, InFlight(c, id, e).wire).(keypair := Is(e.phase.kb));
    assert s == Sess(Is(e.b), Is(e.a), Is(e.phase.kb), Is(c.pub(e.ka)), Is(c.pub(e.phase.kb)), Is(x), Is(|x|),
                     Is(Connected), Is(id), Is(e.a));
    var n1 := n.(sessions := n.sessions[id := s]);
    var e' := e.(phase := Open(e.phase.kb, e.phase.draw));
    assert x[..|x|] == x;
    assert Advance(c, n.guid, s, d) == Updated(ResponderSess(c, id, e'), [], true);
    assert n1.sessions[id := ResponderSess(c, id, e')] == n.sessions[id := ResponderSess(c, id, e')];
  }

  lemma CipherBounds(c: Rsa, kb: Key, d: Draw)
    requires Lawful(c)
    ensures 0 < |Cipher(c, kb, d)| <= MAX_CIPHER_TEXT && WireSafe(Cipher(c, kb, d))
    ensures c.dec(kb, Cipher(c, kb, d)) == SecretOf(d)
  {
    SecretShape(d.r, d.l, d.n);
  }

  lemma OfferMade(c: Rsa, n: Node, b: Guid, id: string, d: Draw)
    requires WillStart(n, b) && id !in n.sessions && n.guid != b
    ensures var e := Entry(n.guid, b, d.key, Offered);
            StartSession(c, n, b, id, d) ==
            Stepped(n.(sessions := n.sessions[id := OriginSess(c, id, e)]), [InFlight(c, id, e)])
  {
    var s := Created(n.guid, b, id);
    var n1 := n.(sessions := n.sessions[id := s]);
    var e := Entry(n.guid, b, d.key, Offered);
    assert Advance(c, n.guid, s, d) == Updated(OriginSess(c, id, e), [InFlight(c, id, e)], false);
    assert n1.sessions[id := OriginSess(c, id, e)] == n.sessions[id := OriginSess(c, id, e)];
  }
}
