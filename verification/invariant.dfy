/** Every step of the network keeps the ledger invariant, and every delivery is defined. */
module Invariant {
  import opened Cells
  import opened Records
  import opened Frames
  import opened Handshake
  import opened Network
  import opened Ledger

  // ---- one entry changes ----

  lemma OthersKept(c: Rsa, nodes: map<Guid, Node>, g: Guid, n': Node, id: string, x: string, e: Entry)
    requires EntryOk(c, nodes, x, e) && x != id
    requires g in nodes && n'.peers == nodes[g].peers
    requires id in n'.sessions && n'.sessions == nodes[g].sessions[id := n'.sessions[id]]
    ensures EntryOk(c, nodes[g := n'], x, e)
  {
  }

  lemma EntryReplaced(c: Rsa, book: Book, sys: System, g: Guid, n': Node, id: string, e': Entry, bag': seq<Packet>)
    requires Explains(c, book, sys) && g in sys.nodes && NodeOk(g, n')
    requires n'.peers == sys.nodes[g].peers
    requires id in n'.sessions && n'.sessions == sys.nodes[g].sessions[id := n'.sessions[id]]
    requires g == e'.a || g == e'.b
    requires id in book ==> e'.a == book[id].a && e'.b == book[id].b
    requires EntryOk(c, sys.nodes[g := n'], id, e')
    requires OnePerPair(book[id := e']) && BagOk(c, bag', book[id := e'])
    ensures Explains(c, book[id := e'], System(sys.nodes[g := n'], bag'))
  {
    var nodes' := sys.nodes[g := n'];
    var book' := book[id := e'];
    forall x | x in book'
      ensures EntryOk(c, nodes', x, book'[x])
    {
      if x != id {
        OthersKept(c, sys.nodes, g, n', id, x, book[x]);
      }
    }
    hide EntryOk;
    forall h, x | h in nodes' && x in nodes'[h].sessions
      ensures x in book' && (h == book'[x].a || h == book'[x].b)
    {
      if x != id {
        assert x in sys.nodes[h].sessions;
      } else if h != g {
        assert x in sys.nodes[h].sessions && x in book;
      }
    }
    assert NodesOk(nodes');
  }

  /** The frame of session `id` is taken out of flight, the next one, if any, is put in. */
  lemma BagTurnedOver(c: Rsa, book: Book, bag: seq<Packet>, i: nat, e': Entry, sent: seq<Packet>)
    requires BagOk(c, bag, book) && i < |bag|
    requires if e'.phase.Open? then sent == [] else sent == [InFlight(c, bag[i].wire.id, e')]
    ensures BagOk(c, Without(bag, i) + sent, book[bag[i].wire.id := e'])
  {
    hide OriginSess;
    hide ResponderSess;
    var id := bag[i].wire.id;
    var bag' := Without(bag, i) + sent;
    forall k | 0 <= k < |bag'|
      ensures PacketOk(c, bag'[k], book[id := e'])
      ensures k < |bag| - 1 ==> bag'[k].wire.id != id
    {
      if k < |bag| - 1 {
        var k0 := if k < i then k else k + 1;
        assert bag'[k] == bag[k0] && PacketOk(c, bag[k0], book);
      }
    }
    forall j, k | 0 <= j < k < |bag'|
      ensures bag'[j].wire.id != bag'[k].wire.id
    {
      var j0 := if j < i then j else j + 1;
      var k0 := if k < i then k else k + 1;
      assert bag'[j] == bag[j0];
      if k < |bag| - 1 {
        assert bag'[k] == bag[k0];
      }
    }
  }

  // ---- deliveries ----

  /** The entry after its frame in flight has been delivered, with the random draw `d`. */
  function Next(e: Entry, d: Draw): Entry
    requires !e.phase.Open?
  {
    match e.phase
    case Offered => e.(phase := Answered(d.key))
    case Answered(kb) => e.(phase := Sealed(kb, d))
    case Sealed(kb, d0) => e.(phase := Open(kb, d0))
  }

  function SentBy(c: Rsa, id: string, e': Entry): seq<Packet> {
    if e'.phase.Open? then [] else [InFlight(c, id, e')]
  }

  /** The receiver after a delivery that took its session to `e'`. */
  function NodeAfter(c: Rsa, n: Node, id: string, e': Entry): Node {
    match e'.phase
    case Offered => n.(sessions := n.sessions[id := OriginSess(c, id, e')])
    case Answered(_) => n.(sessions := n.sessions[id := ResponderSess(c, id, e')])
    case Sealed(_, _) => n.(sessions := n.sessions[id := OriginSess(c, id, e')], last := Stored(id))
    case Open(_, _) => n.(sessions := n.sessions[id := ResponderSess(c, id, e')], last := Stored(id))
  }

  lemma DeliveryReceived(c: Rsa, nodes: map<Guid, Node>, id: string, e: Entry, d: Draw)
    requires Lawful(c) && NodesOk(nodes) && EntryOk(c, nodes, id, e) && !e.phase.Open?
    ensures var p := InFlight(c, id, e);
            var n := nodes[p.dest];
            var e' := Next(e, d);
            Receive(c, n, Orient(n.guid, n.peers.Keys, p.wire), d) ==
            Stepped(NodeAfter(c, n, id, e'), SentBy(c, id, e'))
  {
    var n := nodes[InFlight(c, id, e).dest];
    assert NodeOk(InFlight(c, id, e).dest, n);
    match e.phase {
      case Offered => OfferReceived(c, n, id, e, d);
      case Answered(_) => AnswerReceived(c, n, id, e, d);
      case Sealed(_, _) => SecretReceived(c, n, id, e, d);
    }
  }

  lemma EntryAdvances(c: Rsa, nodes: map<Guid, Node>, id: string, e: Entry, d: Draw)
    requires NodesOk(nodes) && EntryOk(c, nodes, id, e) && !e.phase.Open?
    ensures var g := InFlight(c, id, e).dest;
            var n' := NodeAfter(c, nodes[g], id, Next(e, d));
            NodeOk(g, n') && EntryOk(c, nodes[g := n'], id, Next(e, d))
  {
    var g := InFlight(c, id, e).dest;
    assert NodeOk(g, nodes[g]);
  }

  lemma PairKept(book: Book, id: string, e': Entry)
    requires OnePerPair(book) && id in book && SameEnds(book[id], e')
    ensures OnePerPair(book[id := e'])
  {
    var book' := book[id := e'];
    forall x, y | x in book' && y in book' && SameEnds(book'[x], book'[y])
      ensures x == y
    {
      assert SameEnds(book[x], book[y]);
    }
  }

  lemma DeliveryFired(c: Rsa, sys: System, i: nat, d: Draw, n': Node, sent: seq<Packet>)
    requires Enabled(sys, Deliver(i, d))
    requires var p := sys.bag[i];
             var n := sys.nodes[p.dest];
             Receive(c, n, Orient(n.guid, n.peers.Keys, p.wire), d) == Stepped(n', sent)
    ensures Fire(c, sys, Deliver(i, d)) ==
            Fired(System(sys.nodes[sys.bag[i].dest := n'], Without(sys.bag, i) + sent), sent)
  {
  }

  /** In an explained state every delivery is defined and moves its session to the next phase. */
  lemma Delivered(c: Rsa, book: Book, sys: System, i: nat, d: Draw)
    requires Lawful(c) && Explains(c, book, sys) && i < |sys.bag|
    ensures Enabled(sys, Deliver(i, d))
    ensures var id := sys.bag[i].wire.id;
            && id in book && !book[id].phase.Open?
            && var e' := Next(book[id], d);
               var f := Fire(c, sys, Deliver(i, d));
               f.Fired? && f.sent == SentBy(c, id, e') && f.sys.bag == Without(sys.bag, i) + f.sent
               && f.sys.nodes == sys.nodes[sys.bag[i].dest := NodeAfter(c, sys.nodes[sys.bag[i].dest], id, e')]
               && Explains(c, book[id := e'], f.sys)
  {
    var p := sys.bag[i];
    var id := p.wire.id;
    assert PacketOk(c, p, book);
    var e := book[id];
    var e' := Next(e, d);
    assert EntryOk(c, sys.nodes, id, e);
    var n' := NodeAfter(c, sys.nodes[p.dest], id, e');
    var sent := SentBy(c, id, e');
    DeliveryReceived(c, sys.nodes, id, e, d);
    DeliveryFired(c, sys, i, d, n', sent);
    EntryAdvances(c, sys.nodes, id, e, d);
    BagTurnedOver(c, book, sys.bag, i, e', sent);
    PairKept(book, id, e');
    EntryReplaced(c, book, sys, p.dest, n', id, e', Without(sys.bag, i) + sent);
  }

  // ---- starts ----

  lemma NewId(c: Rsa, book: Book, nodes: map<Guid, Node>, id: string)
    requires EntriesOk(c, nodes, book) && Fresh(nodes, id)
    ensures id !in book
  {
    assert id in book ==> EntryOk(c, nodes, id, book[id]);
  }

  lemma NewPair(c: Rsa, book: Book, nodes: map<Guid, Node>, a: Guid, b: Guid, id: string, e: Entry)
    requires EntriesOk(c, nodes, book) && OnePerPair(book)
    requires a in nodes && !HasSessionBetween(nodes[a], a, b)
    requires e.a == a && e.b == b && id !in book
    ensures OnePerPair(book[id := e])
  {
    forall x | x in book
      ensures !SameEnds(book[x], e)
    {
      assert EntryOk(c, nodes, x, book[x]);
      var s := nodes[book[x].a].sessions[x];
      assert s.local == Is(book[x].a) && s.foreign == Is(book[x].b);
    }
  }

  lemma BagGrows(c: Rsa, book: Book, bag: seq<Packet>, id: string, e: Entry)
    requires BagOk(c, bag, book) && id !in book && e.phase.Offered?
    ensures BagOk(c, bag + [InFlight(c, id, e)], book[id := e])
  {
    var bag' := bag + [InFlight(c, id, e)];
    forall k | 0 <= k < |bag'|
      ensures PacketOk(c, bag'[k], book[id := e])
      ensures k < |bag| ==> bag'[k].wire.id != id
    {
      if k < |bag| {
        assert PacketOk(c, bag[k], book);
      }
    }
  }

  lemma NewEntry(c: Rsa, nodes: map<Guid, Node>, a: Guid, b: Guid, id: string, d: Draw)
    requires NodesOk(nodes) && CanStart(nodes, a, b, id) && WillStart(nodes[a], b)
    ensures var e := Entry(a, b, d.key, Offered);
            var n' := NodeAfter(c, nodes[a], id, e);
            NodeOk(a, n') && EntryOk(c, nodes[a := n'], id, e)
  {
    assert NodeOk(a, nodes[a]);
  }

  lemma StartFired(c: Rsa, sys: System, a: Guid, b: Guid, id: string, d: Draw)
    requires Enabled(sys, Start(a, b, id, d)) && WillStart(sys.nodes[a], b) && sys.nodes[a].guid == a
    ensures var e := Entry(a, b, d.key, Offered);
            var sent := [InFlight(c, id, e)];
            Fire(c, sys, Start(a, b, id, d)) ==
            Fired(System(sys.nodes[a := NodeAfter(c, sys.nodes[a], id, e)], sys.bag + sent), sent)
  {
    OfferMade(c, sys.nodes[a], b, id, d);
  }

  /** A start that goes ahead puts a new session on the ledger and its first frame in flight. */
  lemma Started(c: Rsa, book: Book, sys: System, a: Guid, b: Guid, id: string, d: Draw)
    requires Explains(c, book, sys) && Enabled(sys, Start(a, b, id, d)) && WillStart(sys.nodes[a], b)
    ensures id !in book
    ensures var e := Entry(a, b, d.key, Offered);
            var f := Fire(c, sys, Start(a, b, id, d));
            f.Fired? && f.sent == [InFlight(c, id, e)] && f.sys.bag == sys.bag + f.sent
            && f.sys.nodes == sys.nodes[a := NodeAfter(c, sys.nodes[a], id, e)]
            && Explains(c, book[id := e], f.sys)
  {
    assert NodeOk(a, sys.nodes[a]);
    var e := Entry(a, b, d.key, Offered);
    var n' := NodeAfter(c, sys.nodes[a], id, e);
    NewId(c, book, sys.nodes, id);
    StartFired(c, sys, a, b, id, d);
    NewEntry(c, sys.nodes, a, b, id, d);
    NewPair(c, book, sys.nodes, a, b, id, e);
    BagGrows(c, book, sys.bag, id, e);
    EntryReplaced(c, book, sys, a, n', id, e, sys.bag + [InFlight(c, id, e)]);
  }

  lemma StartRefused(c: Rsa, sys: System, a: Guid, b: Guid, id: string, d: Draw)
    requires Enabled(sys, Start(a, b, id, d)) && !WillStart(sys.nodes[a], b)
    ensures Fire(c, sys, Start(a, b, id, d)) == Fired(sys, [])
  {
    assert sys.nodes[a := sys.nodes[a]] == sys.nodes;
    assert sys.bag + [] == sys.bag;
  }

  // ---- the other steps ----

  /** A peer's step that keeps its peers and, up to closing, its sessions. */
  ghost predicate Mild(n: Node, n': Node) {
    && n'.guid == n.guid && n'.last == n.last && n.peers.Keys <= n'.peers.Keys
    && n'.sessions.Keys == n.sessions.Keys
    && forall id | id in n.sessions :: n'.sessions[id] == n.sessions[id] || n'.sessions[id] == Shut(n.sessions[id])
  }

  lemma ShutMatches(s: Sess, want: Sess)
    requires Matches(s, want)
    ensures Matches(Shut(s), want)
  {
  }

  lemma MildEntry(c: Rsa, nodes: map<Guid, Node>, g: Guid, n': Node, id: string, e: Entry)
    requires EntryOk(c, nodes, id, e) && g in nodes && Mild(nodes[g], n')
    ensures EntryOk(c, nodes[g := n'], id, e)
  {
    ShutMatches(nodes[e.a].sessions[id], OriginSess(c, id, e));
    if !e.phase.Offered? {
      ShutMatches(nodes[e.b].sessions[id], ResponderSess(c, id, e));
    }
  }

  lemma MildNode(g: Guid, n: Node, n': Node)
    requires NodeOk(g, n) && Mild(n, n')
    ensures NodeOk(g, n')
  {
  }

  lemma MildAccounted(nodes: map<Guid, Node>, book: Book, g: Guid, n': Node)
    requires Accounted(nodes, book) && g in nodes && Mild(nodes[g], n')
    ensures Accounted(nodes[g := n'], book)
  {
  }

  lemma MildStep(c: Rsa, book: Book, sys: System, g: Guid, n': Node)
    requires Explains(c, book, sys) && g in sys.nodes && Mild(sys.nodes[g], n')
    ensures Explains(c, book, System(sys.nodes[g := n'], sys.bag))
  {
    hide EntryOk;
    hide NodeOk;
    hide Mild;
    var nodes' := sys.nodes[g := n'];
    MildNode(g, sys.nodes[g], n');
    MildAccounted(sys.nodes, book, g, n');
    forall id | id in book
      ensures EntryOk(c, nodes', id, book[id])
    {
      MildEntry(c, sys.nodes, g, n', id, book[id]);
    }
  }

  lemma HearPulseKeeps(peers: map<Guid, PeerRec>, text: string, ip: string)
    ensures HearPulse(peers, text, ip).Some? ==> peers.Keys <= HearPulse(peers, text, ip).value.Keys
  {
  }

  lemma BagShrinks(c: Rsa, book: Book, bag: seq<Packet>, i: nat)
    requires BagOk(c, bag, book) && i < |bag|
    ensures BagOk(c, Without(bag, i), book)
  {
    var bag' := Without(bag, i);
    forall k | 0 <= k < |bag'|
      ensures PacketOk(c, bag'[k], book)
    {
      assert bag'[k] == bag[if k < i then k else k + 1];
    }
    forall j, k | 0 <= j < k < |bag'|
      ensures bag'[j].wire.id != bag'[k].wire.id
    {
      assert bag'[j] == bag[if j < i then j else j + 1];
      assert bag'[k] == bag[if k < i then k else k + 1];
    }
  }

  // ---- what a step sends and stores, without the ledger it leads to ----

  lemma DeliverySent(c: Rsa, book: Book, sys: System, i: nat, d: Draw)
    requires Lawful(c) && Explains(c, book, sys) && i < |sys.bag|
    ensures Enabled(sys, Deliver(i, d)) && PacketOk(c, sys.bag[i], book)
    ensures EntryOk(c, sys.nodes, sys.bag[i].wire.id, book[sys.bag[i].wire.id])
    ensures var id := sys.bag[i].wire.id;
            var e' := Next(book[id], d);
            Fire(c, sys, Deliver(i, d)) ==
            Fired(System(sys.nodes[sys.bag[i].dest := NodeAfter(c, sys.nodes[sys.bag[i].dest], id, e')],
                         Without(sys.bag, i) + SentBy(c, id, e')), SentBy(c, id, e'))
  {
    assert PacketOk(c, sys.bag[i], book);
    Delivered(c, book, sys, i, d);
  }

  lemma StartSent(c: Rsa, book: Book, sys: System, a: Guid, b: Guid, id: string, d: Draw)
    requires Explains(c, book, sys) && Enabled(sys, Start(a, b, id, d)) && WillStart(sys.nodes[a], b)
    ensures id !in book && id !in sys.nodes[a].sessions
    ensures var e := Entry(a, b, d.key, Offered);
            Fire(c, sys, Start(a, b, id, d)) ==
            Fired(System(sys.nodes[a := NodeAfter(c, sys.nodes[a], id, e)], sys.bag + [InFlight(c, id, e)]),
                  [InFlight(c, id, e)])
  {
    Started(c, book, sys, a, b, id, d);
  }

  // ---- one step, any step ----

  /** How a step changes the ledger. */
  ghost function Write(book: Book, sys: System, act: Action): Book
    requires Enabled(sys, act)
  {
    match act
    case Start(a, b, id, d) => if WillStart(sys.nodes[a], b) then book[id := Entry(a, b, d.key, Offered)] else book
    case Deliver(i, d) =>
      var id := sys.bag[i].wire.id;
      if id in book && !book[id].phase.Open? then book[id := Next(book[id], d)] else book
    case _ => book
  }

  lemma StepExplained(c: Rsa, book: Book, sys: System, act: Action)
    requires Lawful(c) && Explains(c, book, sys) && Enabled(sys, act)
    ensures Fire(c, sys, act).Fired? <==> Harmless(sys, act)
    ensures Harmless(sys, act) ==> Explains(c, Write(book, sys, act), Fire(c, sys, act).sys)
  {
    match act {
      case Start(a, b, id, d) =>
        if WillStart(sys.nodes[a], b) {
          Started(c, book, sys, a, b, id, d);
        } else {
          StartRefused(c, sys, a, b, id, d);
        }
      case Deliver(i, d) => Delivered(c, book, sys, i, d);
      case Interrupt(at) => MildStep(c, book, sys, at, Shutdown(sys.nodes[at]));
      case Hear(at, text, ip) =>
        var n := sys.nodes[at];
        if Harmless(sys, act) {
          HearPulseKeeps(n.peers, text, ip);
          MildStep(c, book, sys, at, n.(peers := HearPulse(n.peers, text, ip).value));
        }
      case Lose(i) => BagShrinks(c, book, sys.bag, i);
    }
  }

  // ---- losslessness ----

  lemma StillCarried(bag: seq<Packet>, i: nat, sent: seq<Packet>, id: string)
    requires i < |bag| && Carries(bag, id) && bag[i].wire.id != id
    ensures Carries(Without(bag, i) + sent, id)
  {
    var k :| 0 <= k < |bag| && bag[k].wire.id == id;
    var k' := if k < i then k else k - 1;
    assert (Without(bag, i) + sent)[k'] == bag[k];
  }

  lemma StartCarries(c: Rsa, book: Book, bag: seq<Packet>, id: string, e: Entry)
    requires NothingLost(bag, book) && e.phase.Offered?
    ensures NothingLost(bag + [InFlight(c, id, e)], book[id := e])
  {
    var bag' := bag + [InFlight(c, id, e)];
    assert bag'[|bag|].wire.id == id;
    forall x | x in book && x != id && !book[x].phase.Open?
      ensures Carries(bag', x)
    {
      assert Carries(bag, x);
      var k :| 0 <= k < |bag| && bag[k].wire.id == x;
      assert bag'[k].wire.id == x;
    }
  }

  lemma DeliveryCarries(c: Rsa, book: Book, bag: seq<Packet>, i: nat, e': Entry)
    requires NothingLost(bag, book) && i < |bag|
    ensures var id := bag[i].wire.id; NothingLost(Without(bag, i) + SentBy(c, id, e'), book[id := e'])
  {
    var id := bag[i].wire.id;
    var sent := SentBy(c, id, e');
    if !e'.phase.Open? {
      assert (Without(bag, i) + sent)[|bag| - 1].wire.id == id;
    }
    forall x | x in book && x != id && !book[x].phase.Open?
      ensures Carries(Without(bag, i) + sent, x)
    {
      StillCarried(bag, i, sent, x);
    }
  }

  lemma NothingLostKept(c: Rsa, book: Book, sys: System, act: Action)
    requires Lawful(c) && Explains(c, book, sys) && Enabled(sys, act) && Harmless(sys, act) && !act.Lose?
    requires NothingLost(sys.bag, book)
    ensures Fire(c, sys, act).Fired?
    ensures NothingLost(Fire(c, sys, act).sys.bag, Write(book, sys, act))
  {
    match act {
      case Start(a, b, id, d) =>
        if WillStart(sys.nodes[a], b) {
          Started(c, book, sys, a, b, id, d);
          StartCarries(c, book, sys.bag, id, Entry(a, b, d.key, Offered));
        } else {
          StartRefused(c, sys, a, b, id, d);
        }
      case Deliver(i, d) =>
        Delivered(c, book, sys, i, d);
        DeliveryCarries(c, book, sys.bag, i, Next(book[sys.bag[i].wire.id], d));
      case Interrupt(_) =>
      case Hear(_, _, _) =>
    }
  }
}
