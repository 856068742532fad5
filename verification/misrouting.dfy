/** Reachable states in which a peer deciphers messages with the wrong session: after sessions opened one
    after the other with three peers, and after two opened at once with two. */
module Misrouting {
  import opened Cells
  import opened Records
  import opened Generators
  import opened Handshake
  import opened Network
  import opened Ledger
  import opened Invariant
  import opened Runs
  import opened Base64
  import opened Des
  import opened SecureChannel
  import opened ToyRsa

  // ---- a session opened without interruption ----

  /** A run and the ledger that explains its last state. */
  ghost predicate Led(c: Rsa, ss: seq<System>, acts: seq<Action>, book: Book) {
    Lawful(c) && IsRun(c, ss, acts) && |ss| == |acts| + 1 && Explains(c, book, ss[|acts|])
  }

  lemma LedOn(c: Rsa, ss: seq<System>, acts: seq<Action>, book: Book, act: Action, next: System, book': Book)
    returns (ss': seq<System>, acts': seq<Action>)
    requires Led(c, ss, acts, book) && StepsTo(c, ss[|acts|], act, next) && Explains(c, book', next)
    ensures Led(c, ss', acts', book') && ss'[|acts'|] == next
  {
    RunExtended(c, ss, acts, act, next);
    ss', acts' := ss + [next], acts + [act];
  }

  lemma StartOn(c: Rsa, ss: seq<System>, acts: seq<Action>, book: Book, a: Guid, b: Guid, id: string, d: Draw)
    returns (ss': seq<System>, acts': seq<Action>)
    requires Led(c, ss, acts, book) && Enabled(ss[|acts|], Start(a, b, id, d)) && WillStart(ss[|acts|].nodes[a], b)
    ensures var e := Entry(a, b, d.key, Offered);
            && Led(c, ss', acts', book[id := e]) && |ss'| == |acts'| + 1
            && ss'[|acts'|].bag == ss[|acts|].bag + [InFlight(c, id, e)]
            && ss'[|acts'|].nodes == ss[|acts|].nodes[a := NodeAfter(c, ss[|acts|].nodes[a], id, e)]
  {
    var sys := ss[|acts|];
    Started(c, book, sys, a, b, id, d);
    var next := Fire(c, sys, Start(a, b, id, d)).sys;
    hide Explains;
    ss', acts' := LedOn(c, ss, acts, book, Start(a, b, id, d), next, book[id := Entry(a, b, d.key, Offered)]);
  }

  /** The frame sent first of those in flight is delivered. */
  lemma DeliverOn(c: Rsa, ss: seq<System>, acts: seq<Action>, book: Book, id: string, e: Entry, d: Draw,
                  rest: seq<Packet>)
    returns (ss': seq<System>, acts': seq<Action>)
    requires Led(c, ss, acts, book) && id in book && book[id] == e && !e.phase.Open?
    requires ss[|acts|].bag == [InFlight(c, id, e)] + rest
    ensures var to := InFlight(c, id, e).dest;
            && Led(c, ss', acts', book[id := Next(e, d)]) && |ss'| == |acts'| + 1
            && ss'[|acts'|].bag == rest + SentBy(c, id, Next(e, d))
            && to in ss[|acts|].nodes
            && ss'[|acts'|].nodes == ss[|acts|].nodes[to := NodeAfter(c, ss[|acts|].nodes[to], id, Next(e, d))]
  {
    var sys := ss[|acts|];
    Delivered(c, book, sys, 0, d);
    var next := Fire(c, sys, Deliver(0, d)).sys;
    assert Without(sys.bag, 0) == rest;
    hide Explains;
    ss', acts' := LedOn(c, ss, acts, book, Deliver(0, d), next, book[id := Next(e, d)]);
  }

  /** The draws of one session: of its origin, of its responder and of its origin again. */
  datatype Draws = Draws(start: Draw, answer: Draw, seal: Draw)

  function EntryOf(a: Guid, b: Guid, ds: Draws): Entry {
    Entry(a, b, ds.start.key, Open(ds.answer.key, ds.seal))
  }

  /** The two ends of a session just opened. */
  function OriginAfter(c: Rsa, n: Node, id: string, e: Entry): Node {
    n.(sessions := n.sessions[id := OriginSess(c, id, e)], last := Stored(id))
  }

  function ResponderAfter(c: Rsa, n: Node, id: string, e: Entry): Node
    requires !e.phase.Offered?
  {
    n.(sessions := n.sessions[id := ResponderSess(c, id, e)], last := Stored(id))
  }

  lemma OneEntry(book: Book, id: string, e: Entry, e': Entry)
    ensures book[id := e][id := e'] == book[id := e']
  {
  }

  /** The first half: the offer is made and answered. */
  lemma Answering(c: Rsa, ss: seq<System>, acts: seq<Action>, book: Book, a: Guid, b: Guid, id: string, ds: Draws)
    returns (ss': seq<System>, acts': seq<Action>)
    requires Led(c, ss, acts, book) && ss[|acts|].bag == [] && a != b && b in ss[|acts|].nodes
    requires Enabled(ss[|acts|], Start(a, b, id, ds.start)) && WillStart(ss[|acts|].nodes[a], b)
    ensures var e0 := Entry(a, b, ds.start.key, Offered);
            var e1 := e0.(phase := Answered(ds.answer.key));
            var nodes := ss[|acts|].nodes;
            && Led(c, ss', acts', book[id := e1]) && |ss'| == |acts'| + 1
            && ss'[|acts'|].bag == [InFlight(c, id, e1)]
            && ss'[|acts'|].nodes == nodes[a := NodeAfter(c, nodes[a], id, e0)][b := NodeAfter(c, nodes[b], id, e1)]
  {
    var e0 := Entry(a, b, ds.start.key, Offered);
    var e1 := e0.(phase := Answered(ds.answer.key));
    assert InFlight(c, id, e0).dest == b && Next(e0, ds.answer) == e1 && SentBy(c, id, e1) == [InFlight(c, id, e1)];
    assert |ss| == |acts| + 1;
    hide Led;
    hide InFlight;
    hide NodeAfter;
    ss', acts' := StartOn(c, ss, acts, book, a, b, id, ds.start);
    ss', acts' := DeliverOn(c, ss', acts', book[id := e0], id, e0, ds.answer, []);
    OneEntry(book, id, e0, e1);
  }

  /** The second half: the secret is sent and received. */
  lemma Sealing(c: Rsa, ss: seq<System>, acts: seq<Action>, book: Book, id: string, e1: Entry, d: Draw)
    returns (ss': seq<System>, acts': seq<Action>)
    requires Led(c, ss, acts, book) && id in book && book[id] == e1 && e1.phase.Answered? && e1.a != e1.b
    requires ss[|acts|].bag == [InFlight(c, id, e1)] && e1.a in ss[|acts|].nodes && e1.b in ss[|acts|].nodes
    ensures var e2, e3 := e1.(phase := Sealed(e1.phase.kb, d)), e1.(phase := Open(e1.phase.kb, d));
            var nodes := ss[|acts|].nodes;
            && Led(c, ss', acts', book[id := e3]) && |ss'| == |acts'| + 1 && ss'[|acts'|].bag == []
            && ss'[|acts'|].nodes ==
               nodes[e1.a := NodeAfter(c, nodes[e1.a], id, e2)][e1.b := NodeAfter(c, nodes[e1.b], id, e3)]
  {
    var e2, e3 := e1.(phase := Sealed(e1.phase.kb, d)), e1.(phase := Open(e1.phase.kb, d));
    assert InFlight(c, id, e1).dest == e1.a && InFlight(c, id, e2).dest == e1.b;
    assert Next(e1, d) == e2 && SentBy(c, id, e2) == [InFlight(c, id, e2)];
    assert Next(e2, d) == e3 && SentBy(c, id, e3) == [];
    assert |ss| == |acts| + 1;
    hide Led;
    hide InFlight;
    hide NodeAfter;
    ss', acts' := DeliverOn(c, ss, acts, book, id, e1, d, []);
    ss', acts' := DeliverOn(c, ss', acts', book[id := e2], id, e2, d, []);
    OneEntry(book, id, e2, e3);
  }

  /** A start and three deliveries open a session and leave the network quiet. */
  lemma Opened(c: Rsa, ss: seq<System>, acts: seq<Action>, book: Book, a: Guid, b: Guid, id: string, ds: Draws)
    returns (ss': seq<System>, acts': seq<Action>)
    requires Led(c, ss, acts, book) && ss[|acts|].bag == [] && a != b && b in ss[|acts|].nodes
    requires Enabled(ss[|acts|], Start(a, b, id, ds.start)) && WillStart(ss[|acts|].nodes[a], b)
    ensures Led(c, ss', acts', book[id := EntryOf(a, b, ds)]) && ss'[|acts'|].bag == []
    ensures var nodes, e := ss[|acts|].nodes, EntryOf(a, b, ds);
            ss'[|acts'|].nodes == nodes[a := OriginAfter(c, nodes[a], id, e)][b := ResponderAfter(c, nodes[b], id, e)]
  {
    assert |ss| == |acts| + 1 && a in ss[|acts|].nodes;
    hide Led;
    hide Enabled;
    hide WillStart;
    hide NodeAfter;
    hide InFlight;
    var e1 := Entry(a, b, ds.start.key, Answered(ds.answer.key));
    NodesOpened(c, ss[|acts|].nodes, a, b, id, ds);
    ss', acts' := Answering(c, ss, acts, book, a, b, id, ds);
    ss', acts' := Sealing(c, ss', acts', book[id := e1], id, e1, ds.seal);
    OneEntry(book, id, e1, EntryOf(a, b, ds));
  }

  lemma NodesOpened(c: Rsa, nodes: map<Guid, Node>, a: Guid, b: Guid, id: string, ds: Draws)
    requires a in nodes && b in nodes && a != b
    ensures var e0 := Entry(a, b, ds.start.key, Offered);
            var e1, e2 := e0.(phase := Answered(ds.answer.key)), e0.(phase := Sealed(ds.answer.key, ds.seal));
            var e3 := EntryOf(a, b, ds);
            var m1 := nodes[a := NodeAfter(c, nodes[a], id, e0)][b := NodeAfter(c, nodes[b], id, e1)];
            m1[a := NodeAfter(c, m1[a], id, e2)][b := NodeAfter(c, m1[b], id, e3)] ==
            nodes[a := OriginAfter(c, nodes[a], id, e3)][b := ResponderAfter(c, nodes[b], id, e3)]
  {
    var e0 := Entry(a, b, ds.start.key, Offered);
    var e1, e2 := e0.(phase := Answered(ds.answer.key)), e0.(phase := Sealed(ds.answer.key, ds.seal));
    var e3 := EntryOf(a, b, ds);
    var x, y := nodes[a].sessions, nodes[b].sessions;
    assert OriginSess(c, id, e2) == OriginSess(c, id, e3);
    assert x[id := OriginSess(c, id, e0)][id := OriginSess(c, id, e2)] == x[id := OriginSess(c, id, e3)];
    assert y[id := ResponderSess(c, id, e1)][id := ResponderSess(c, id, e3)] == y[id := ResponderSess(c, id, e3)];
  }

  // ---- peers ----

  /** A peer that has heard of the guids `known` and done nothing yet. */
  function NewPeer(g: Guid, known: set<Guid>): Node {
    Node(g, map x | x in known :: PeerRec(Null, "", Null, Null, Null), map[], NoLast)
  }

  /** Peers that all know one another. */
  function Gathered(gs: set<Guid>): System {
    System(map g | g in gs :: NewPeer(g, gs), [])
  }

  predicate Distinct(a: Guid, b: Guid, x: Guid) {
    a != b && a != x && b != x
  }

  lemma GatheredBegins(c: Rsa, gs: set<Guid>)
    requires Lawful(c) && forall g | g in gs :: Generated(g)
    ensures Led(c, [Gathered(gs)], [], map[])
  {
    RunBegins(c, [Gathered(gs)], []);
  }

  /** The peers once `a` has opened session `id` with `b`, and then `x` session `id'`. */
  function OpenedNodes(c: Rsa, nodes: map<Guid, Node>, a: Guid, b: Guid, id: string, e: Entry): map<Guid, Node>
    requires a in nodes && b in nodes && !e.phase.Offered?
  {
    nodes[a := OriginAfter(c, nodes[a], id, e)][b := ResponderAfter(c, nodes[b], id, e)]
  }

  /** `x` can start its session after that of `a`. */
  lemma SecondCanStart(c: Rsa, a: Guid, b: Guid, x: Guid, id: string, id': string, e: Entry)
    requires Distinct(a, b, x) && Generated(id') && id != id' && !e.phase.Offered?
    ensures var base := Gathered({a, b, x}).nodes;
            && a in base && b in base && x in base
            && var nodes := OpenedNodes(c, base, a, b, id, e);
               b in nodes && CanStart(nodes, x, b, id') && WillStart(nodes[x], b)
  {
    var base := Gathered({a, b, x}).nodes;
    assert OpenedNodes(c, base, a, b, id, e)[x] == base[x];
    hide OriginSess;
    hide ResponderSess;
  }

  lemma BothOpened(c: Rsa, nodes: map<Guid, Node>, a: Guid, b: Guid, x: Guid, id: string, id': string,
                   e: Entry, e': Entry)
    requires Distinct(a, b, x) && id != id' && a in nodes && b in nodes && x in nodes
    requires !e.phase.Offered? && !e'.phase.Offered?
    ensures var after := OpenedNodes(c, OpenedNodes(c, nodes, a, b, id, e), x, b, id', e');
            && a in after && id in after[a].sessions && after[a].sessions[id] == OriginSess(c, id, e)
            && b in after && id in after[b].sessions && id' in after[b].sessions && after[b].last == Stored(id')
            && after[b].sessions[id] == ResponderSess(c, id, e)
            && after[b].sessions[id'] == ResponderSess(c, id', e')
  {
    hide OriginSess;
    hide ResponderSess;
  }

  /** Three peers that know one another: `a` opens session `id` with `b`, then `x` opens `id'` with `b`.
      Now `a` and `b` hold `id` connected, and `b` listens with `id'`. */
  lemma TwoSessions(c: Rsa, a: Guid, b: Guid, x: Guid, id: string, id': string, ds: Draws, ds': Draws)
    returns (ss: seq<System>, acts: seq<Action>)
    requires Lawful(c) && Generated(a) && Generated(b) && Generated(x) && Distinct(a, b, x)
    requires Generated(id) && Generated(id') && id != id'
    ensures IsRun(c, ss, acts) && |ss| == |acts| + 1
    ensures var nodes := ss[|acts|].nodes;
            && a in nodes && id in nodes[a].sessions && nodes[a].sessions[id] == OriginSess(c, id, EntryOf(a, b, ds))
            && b in nodes && id in nodes[b].sessions && id' in nodes[b].sessions && nodes[b].last == Stored(id')
            && nodes[b].sessions[id] == ResponderSess(c, id, EntryOf(a, b, ds))
            && nodes[b].sessions[id'] == ResponderSess(c, id', EntryOf(x, b, ds'))
  {
    GatheredBegins(c, {a, b, x});
    var e, e' := EntryOf(a, b, ds), EntryOf(x, b, ds');
    var sys := Gathered({a, b, x});
    var nodes := sys.nodes;
    assert [sys][0] == sys && a != b && x != b;
    FirstCanStart(a, b, x, id);
    SecondCanStart(c, a, b, x, id, id', e);
    BothOpened(c, nodes, a, b, x, id, id', e, e');
    hide *;
    ss, acts := OpenedOn(c, [sys], [], map[], a, b, id, ds);
    ss, acts := OpenedOn(c, ss, acts, map[][id := e], x, b, id', ds');
    LedRuns(c, ss, acts, map[][id := e][id' := e']);
  }

  lemma FirstCanStart(a: Guid, b: Guid, x: Guid, id: string)
    requires Distinct(a, b, x) && Generated(id)
    ensures var nodes := Gathered({a, b, x}).nodes;
            && a in nodes && b in nodes && Gathered({a, b, x}).bag == []
            && CanStart(nodes, a, b, id) && WillStart(nodes[a], b)
  {
  }

  /** `Opened`, with what it leaves of the peers in one word. */
  lemma OpenedOn(c: Rsa, ss: seq<System>, acts: seq<Action>, book: Book, a: Guid, b: Guid, id: string, ds: Draws)
    returns (ss': seq<System>, acts': seq<Action>)
    requires Led(c, ss, acts, book) && |ss| == |acts| + 1
    requires ss[|acts|].bag == [] && a != b && b in ss[|acts|].nodes && a in ss[|acts|].nodes
    requires CanStart(ss[|acts|].nodes, a, b, id) && WillStart(ss[|acts|].nodes[a], b)
    ensures Led(c, ss', acts', book[id := EntryOf(a, b, ds)]) && |ss'| == |acts'| + 1 && ss'[|acts'|].bag == []
    ensures ss'[|acts'|].nodes == OpenedNodes(c, ss[|acts|].nodes, a, b, id, EntryOf(a, b, ds))
  {
    hide Led;
    hide CanStart;
    hide WillStart;
    ss', acts' := Opened(c, ss, acts, book, a, b, id, ds);
    LedRuns(c, ss', acts', book[id := EntryOf(a, b, ds)]);
  }

  lemma LedRuns(c: Rsa, ss: seq<System>, acts: seq<Action>, book: Book)
    requires Led(c, ss, acts, book)
    ensures IsRun(c, ss, acts) && |ss| == |acts| + 1
  {
  }

  // ---- two peers at once ----

  lemma Swapped<K, V>(m: map<K, V>, a: K, b: K, x: V, y: V)
    requires a != b
    ensures m[a := x][b := y] == m[b := y][a := x]
  {
  }

  lemma FirstOfTwo(c: Rsa, ss: seq<System>, acts: seq<Action>, book: Book, id: string, e: Entry, d: Draw, to: Guid,
                   id': string, f: Entry, to': Guid)
    returns (ss': seq<System>, acts': seq<Action>)
    requires Led(c, ss, acts, book) && id != id' && id in book && id' in book && book[id] == e && book[id'] == f
    requires !e.phase.Open? && !f.phase.Open? && ss[|acts|].bag == [InFlight(c, id, e), InFlight(c, id', f)]
    requires InFlight(c, id, e).dest == to && to != to'
    ensures var book' := book[id := Next(e, d)];
            Led(c, ss', acts', book') && |ss'| == |acts'| + 1 && id' in book' && book'[id'] == f
    ensures ss'[|acts'|].bag == [InFlight(c, id', f)] + SentBy(c, id, Next(e, d))
    ensures var nodes := ss[|acts|].nodes;
            && to in nodes && ss'[|acts'|].nodes == nodes[to := NodeAfter(c, nodes[to], id, Next(e, d))]
            && (to' in ss'[|acts'|].nodes <==> to' in nodes)
            && (to' in nodes ==> ss'[|acts'|].nodes[to'] == nodes[to'])
  {
    assert |ss| == |acts| + 1;
    hide *;
    assert [InFlight(c, id, e), InFlight(c, id', f)] == [InFlight(c, id, e)] + [InFlight(c, id', f)];
    ss', acts' := DeliverOn(c, ss, acts, book, id, e, d, [InFlight(c, id', f)]);
    OthersStay(ss[|acts|].nodes, to, NodeAfter(c, ss[|acts|].nodes[to], id, Next(e, d)), to');
    OthersStay(book, id, Next(e, d), id');
  }

  lemma OthersStay<K, V>(m: map<K, V>, k: K, v: V, k': K)
    requires k != k'
    ensures k' in m[k := v] <==> k' in m
    ensures k' in m ==> m[k := v][k'] == m[k']
  {
  }

  /** Two frames in flight of two sessions, both delivered, the older one first. */
  lemma BothOn(c: Rsa, ss: seq<System>, acts: seq<Action>, book: Book, id: string, e: Entry, d: Draw, to: Guid,
               id': string, f: Entry, d': Draw, to': Guid)
    returns (ss': seq<System>, acts': seq<Action>)
    requires Led(c, ss, acts, book) && id != id' && id in book && id' in book && book[id] == e && book[id'] == f
    requires !e.phase.Open? && !f.phase.Open? && ss[|acts|].bag == [InFlight(c, id, e), InFlight(c, id', f)]
    requires InFlight(c, id, e).dest == to && InFlight(c, id', f).dest == to' && to != to'
    ensures Led(c, ss', acts', book[id := Next(e, d)][id' := Next(f, d')]) && |ss'| == |acts'| + 1
    ensures ss'[|acts'|].bag == SentBy(c, id, Next(e, d)) + SentBy(c, id', Next(f, d'))
    ensures var nodes := ss[|acts|].nodes;
            to in nodes && to' in nodes
            && ss'[|acts'|].nodes == nodes[to := NodeAfter(c, nodes[to], id, Next(e, d))]
                                          [to' := NodeAfter(c, nodes[to'], id', Next(f, d'))]
  {
    assert |ss| == |acts| + 1;
    hide *;
    ss', acts' := FirstOfTwo(c, ss, acts, book, id, e, d, to, id', f, to');
    ss', acts' := DeliverOn(c, ss', acts', book[id := Next(e, d)], id', f, d', SentBy(c, id, Next(e, d)));
  }

  /** Each of two peers starts a session with the other before it hears of the other's. */
  lemma BothStart(c: Rsa, a: Guid, b: Guid, id: string, id': string, d: Draw, d': Draw)
    returns (ss: seq<System>, acts: seq<Action>)
    requires Lawful(c) && Generated(a) && Generated(b) && a != b && Generated(id) && Generated(id') && id != id'
    ensures var e, f := Entry(a, b, d.key, Offered), Entry(b, a, d'.key, Offered);
            var nodes := Gathered({a, b}).nodes;
            && Led(c, ss, acts, map[id := e, id' := f]) && |ss| == |acts| + 1
            && ss[|acts|].bag == [InFlight(c, id, e), InFlight(c, id', f)]
            && ss[|acts|].nodes == nodes[a := NodeAfter(c, nodes[a], id, e)][b := NodeAfter(c, nodes[b], id', f)]
  {
    GatheredBegins(c, {a, b});
    var sys := Gathered({a, b});
    var e, f := Entry(a, b, d.key, Offered), Entry(b, a, d'.key, Offered);
    hide Led;
    assert [sys][0] == sys && sys.bag + [InFlight(c, id, e)] == [InFlight(c, id, e)];
    ss, acts := StartOn(c, [sys], [], map[], a, b, id, d);
    assert ss[|acts|].nodes[b] == sys.nodes[b];
    ss, acts := StartOn(c, ss, acts, map[][id := e], b, a, id', d');
    assert map[][id := e][id' := f] == map[id := e, id' := f];
  }

  /** The peers `a` and `b` after both sessions have been opened at once, `a` having started `id` and `b`
      having started `id'`. */
  function AfterBoth(c: Rsa, n: Node, id: string, s: Sess, id': string, s': Sess): Node {
    n.(sessions := n.sessions[id := s][id' := s'], last := Stored(id'))
  }

  lemma NodeAfterBoth(c: Rsa, n: Node, id: string, e0: Entry, kb: Key, d: Draw,
                      id': string, f0: Entry, kb': Key, d': Draw)
    requires id != id' && e0.phase.Offered? && f0.phase.Offered?
    ensures var e2, e3 := e0.(phase := Sealed(kb, d)), e0.(phase := Open(kb, d));
            var f1, f3 := f0.(phase := Answered(kb')), f0.(phase := Open(kb', d'));
            NodeAfter(c, NodeAfter(c, NodeAfter(c, NodeAfter(c, n, id, e0), id', f1), id, e2), id', f3) ==
            AfterBoth(c, n, id, OriginSess(c, id, e3), id', ResponderSess(c, id', f3))
  {
    var e2, e3 := e0.(phase := Sealed(kb, d)), e0.(phase := Open(kb, d));
    var f1, f3 := f0.(phase := Answered(kb')), f0.(phase := Open(kb', d'));
    var m := n.sessions;
    var s, s' := OriginSess(c, id, e0), ResponderSess(c, id', f1);
    var t, t' := OriginSess(c, id, e2), ResponderSess(c, id', f3);
    assert OriginSess(c, id, e3) == t;
    assert m[id := s][id' := s'][id := t][id' := t'] == m[id := t][id' := t'];
  }

  /** Two peers open two sessions with each other at once. Each ends up listening with its own
      counterpart's session: `a` with the one `b` started and `b` with the one `a` started. */
  lemma CrossOver(c: Rsa, a: Guid, b: Guid, id: string, id': string, ds: Draws, ds': Draws)
    returns (ss: seq<System>, acts: seq<Action>)
    requires Lawful(c) && Generated(a) && Generated(b) && a != b && Generated(id) && Generated(id') && id != id'
    ensures IsRun(c, ss, acts) && |ss| == |acts| + 1
    ensures var nodes, base := ss[|acts|].nodes, Gathered({a, b}).nodes;
            var e, f := EntryOf(a, b, ds), EntryOf(b, a, ds');
            nodes == base[a := AfterBoth(c, base[a], id, OriginSess(c, id, e), id', ResponderSess(c, id', f))]
                        [b := AfterBoth(c, base[b], id', OriginSess(c, id', f), id, ResponderSess(c, id, e))]
  {
    var e0, f0 := Entry(a, b, ds.start.key, Offered), Entry(b, a, ds'.start.key, Offered);
    hide Led;
    hide NodeAfter;
    hide InFlight;
    ss, acts := BothStart(c, a, b, id, id', ds.start, ds'.start);
    ss, acts := CrossAnswers(c, ss, acts, e0, f0, id, id', ds, ds');
    ss, acts := CrossSecrets(c, ss, acts, e0, f0, id, id', ds, ds');
    ss, acts := CrossEnds(c, ss, acts, e0, f0, id, id', ds, ds');
    LedRuns(c, ss, acts, map[id := EntryOf(a, b, ds), id' := EntryOf(b, a, ds')]);
    hide AfterBoth;
    var base := Gathered({a, b}).nodes;
    NodeAfterBoth(c, base[a], id, e0, ds.answer.key, ds.seal, id', f0, ds'.answer.key, ds'.seal);
    NodeAfterBoth(c, base[b], id', f0, ds'.answer.key, ds'.seal, id, e0, ds.answer.key, ds.seal);
  }

  /** One entry of a ledger of two sessions after the other has changed. */
  lemma TwoEntries(id: string, id': string, e: Entry, f: Entry, e': Entry, f': Entry)
    requires id != id'
    ensures map[id := e, id' := f][id := e'][id' := f'] == map[id := e', id' := f']
  {
  }

  lemma CrossAnswers(c: Rsa, ss: seq<System>, acts: seq<Action>, e0: Entry, f0: Entry, id: string, id': string,
                     ds: Draws, ds': Draws)
    returns (ss': seq<System>, acts': seq<Action>)
    requires Led(c, ss, acts, map[id := e0, id' := f0]) && id != id' && e0.phase.Offered? && f0.phase.Offered?
    requires e0.a != e0.b && f0.a == e0.b && f0.b == e0.a
    requires ss[|acts|].bag == [InFlight(c, id, e0), InFlight(c, id', f0)]
    ensures var e1, f1 := e0.(phase := Answered(ds.answer.key)), f0.(phase := Answered(ds'.answer.key));
            var nodes := ss[|acts|].nodes;
            && Led(c, ss', acts', map[id := e1, id' := f1]) && |ss'| == |acts'| + 1
            && ss'[|acts'|].bag == [InFlight(c, id, e1), InFlight(c, id', f1)]
            && e0.a in nodes && e0.b in nodes
            && ss'[|acts'|].nodes == nodes[e0.a := NodeAfter(c, nodes[e0.a], id', f1)]
                                          [e0.b := NodeAfter(c, nodes[e0.b], id, e1)]
  {
    Course(c, id, e0, ds);
    Course(c, id', f0, ds');
    hide Led;
    hide NodeAfter;
    hide Next;
    hide SentBy;
    hide InFlight;
    ss', acts' := BothOn(c, ss, acts, map[id := e0, id' := f0], id, e0, ds.answer, e0.b,
                         id', f0, ds'.answer, e0.a);
    TwoEntries(id, id', e0, f0, Next(e0, ds.answer), Next(f0, ds'.answer));
    var nodes := ss[|acts|].nodes;
    Swapped(nodes, e0.a, e0.b, NodeAfter(c, nodes[e0.a], id', Next(f0, ds'.answer)),
            NodeAfter(c, nodes[e0.b], id, Next(e0, ds.answer)));
  }

  lemma CrossSecrets(c: Rsa, ss: seq<System>, acts: seq<Action>, e0: Entry, f0: Entry, id: string, id': string,
                     ds: Draws, ds': Draws)
    returns (ss': seq<System>, acts': seq<Action>)
    requires id != id' && e0.phase.Offered? && f0.phase.Offered? && e0.a != e0.b && f0.a == e0.b && f0.b == e0.a
    requires var e1, f1 := e0.(phase := Answered(ds.answer.key)), f0.(phase := Answered(ds'.answer.key));
             && Led(c, ss, acts, map[id := e1, id' := f1])
             && ss[|acts|].bag == [InFlight(c, id, e1), InFlight(c, id', f1)]
    ensures var e2, f2 := e0.(phase := Sealed(ds.answer.key, ds.seal)), f0.(phase := Sealed(ds'.answer.key, ds'.seal));
            var nodes := ss[|acts|].nodes;
            && Led(c, ss', acts', map[id := e2, id' := f2]) && |ss'| == |acts'| + 1
            && ss'[|acts'|].bag == [InFlight(c, id, e2), InFlight(c, id', f2)]
            && e0.a in nodes && e0.b in nodes
            && ss'[|acts'|].nodes == nodes[e0.a := NodeAfter(c, nodes[e0.a], id, e2)]
                                          [e0.b := NodeAfter(c, nodes[e0.b], id', f2)]
  {
    var e1, f1 := e0.(phase := Answered(ds.answer.key)), f0.(phase := Answered(ds'.answer.key));
    Course(c, id, e0, ds);
    Course(c, id', f0, ds');
    hide Led;
    hide NodeAfter;
    hide Next;
    hide SentBy;
    hide InFlight;
    ss', acts' := BothOn(c, ss, acts, map[id := e1, id' := f1], id, e1, ds.seal, e0.a,
                         id', f1, ds'.seal, e0.b);
    TwoEntries(id, id', e1, f1, Next(e1, ds.seal), Next(f1, ds'.seal));
  }

  lemma CrossEnds(c: Rsa, ss: seq<System>, acts: seq<Action>, e0: Entry, f0: Entry, id: string, id': string,
                  ds: Draws, ds': Draws)
    returns (ss': seq<System>, acts': seq<Action>)
    requires id != id' && e0.phase.Offered? && f0.phase.Offered? && e0.a != e0.b && f0.a == e0.b && f0.b == e0.a
    requires var e2, f2 := e0.(phase := Sealed(ds.answer.key, ds.seal)), f0.(phase := Sealed(ds'.answer.key, ds'.seal));
             && Led(c, ss, acts, map[id := e2, id' := f2])
             && ss[|acts|].bag == [InFlight(c, id, e2), InFlight(c, id', f2)]
    ensures var e3, f3 := e0.(phase := Open(ds.answer.key, ds.seal)), f0.(phase := Open(ds'.answer.key, ds'.seal));
            var nodes := ss[|acts|].nodes;
            && Led(c, ss', acts', map[id := e3, id' := f3]) && |ss'| == |acts'| + 1
            && e0.a in nodes && e0.b in nodes
            && ss'[|acts'|].nodes == nodes[e0.a := NodeAfter(c, nodes[e0.a], id', f3)]
                                          [e0.b := NodeAfter(c, nodes[e0.b], id, e3)]
  {
    var e2, f2 := e0.(phase := Sealed(ds.answer.key, ds.seal)), f0.(phase := Sealed(ds'.answer.key, ds'.seal));
    Course(c, id, e0, ds);
    Course(c, id', f0, ds');
    hide Led;
    hide NodeAfter;
    hide Next;
    hide SentBy;
    hide InFlight;
    ss', acts' := BothOn(c, ss, acts, map[id := e2, id' := f2], id, e2, ds.seal, e0.b,
                         id', f2, ds'.seal, e0.a);
    TwoEntries(id, id', e2, f2, Next(e2, ds.seal), Next(f2, ds'.seal));
    var nodes := ss[|acts|].nodes;
    Swapped(nodes, e0.a, e0.b, NodeAfter(c, nodes[e0.a], id', Next(f2, ds'.seal)),
            NodeAfter(c, nodes[e0.b], id, Next(e2, ds.seal)));
  }

  /** The course of one session, its frames and who they go to. */
  lemma Course(c: Rsa, id: string, e0: Entry, ds: Draws)
    requires e0.phase.Offered?
    ensures var e1, e2 := e0.(phase := Answered(ds.answer.key)), e0.(phase := Sealed(ds.answer.key, ds.seal));
            && Next(e0, ds.answer) == e1 && Next(e1, ds.seal) == e2
            && Next(e2, ds.seal) == e0.(phase := Open(ds.answer.key, ds.seal))
            && SentBy(c, id, e1) == [InFlight(c, id, e1)] && SentBy(c, id, e2) == [InFlight(c, id, e2)]
            && InFlight(c, id, e0).dest == e0.b && InFlight(c, id, e1).dest == e0.a && InFlight(c, id, e2).dest == e0.b
  {
  }

  // ---- the wrong session ----

  /** The bytes of the secret drawn. */
  function SecretBytes(d: Draw): (s: seq<Byte>)
    ensures |s| >= 8
  {
    SecretShape(d.r, d.l, d.n);
    CBytes(SecretOf(d))
  }

  /** `a` and `b` hold session `id` connected, and `b` listens with another one. */
  predicate Crossed(nodes: map<Guid, Node>, a: Guid, b: Guid, id: string) {
    && a in nodes && id in nodes[a].sessions && b in nodes && id in nodes[b].sessions
    && nodes[a].sessions[id].state == Is(Connected) && nodes[a].sessions[id].foreign == Is(b)
    && nodes[b].sessions[id].state == Is(Connected)
    && nodes[b].last.Stored? && nodes[b].last.id != id
  }

  /** What `n`, listening with a session of the secret `d'`, shows of a text sent with the secret `d`. */
  lemma HeardAcross(e: BlockCipher, s: Sess, n: Node, d: Draw, d': Draw, text: seq<Byte>, beyond: nat -> Byte)
    requires Blocks(e) && 0 !in text
    requires s.state == Is(Connected) && s.foreign.Is? && s.secret == Is(SecretOf(d))
    requires n.last.Stored? && n.last.id in n.sessions && n.sessions[n.last.id].state == Is(Connected)
    requires n.sessions[n.last.id].secret == Is(SecretOf(d'))
    ensures ShownAsTyped(e, s, n, text, beyond) <==>
            MasksAgree(e, KeyBlock(e, SecretBytes(d)), KeyBlock(e, SecretBytes(d')), text)
  {
    SecretShape(d.r, d.l, d.n);
    SecretShape(d'.r, d'.l, d'.n);
    hide SecretText;
    HeardAs(e, s, n, text, beyond);
    hide MasksAgree;
    hide Speak;
    hide Listen;
  }

  /** Such a state is reached whatever secrets are drawn, and there a text of `a` is shown by `b` as
      typed exactly when the masks of the two secrets agree on it. */
  lemma CrossedShownIff(c: Rsa, e: BlockCipher, a: Guid, b: Guid, x: Guid, id: string, id': string,
                        ds: Draws, ds': Draws, text: seq<Byte>, beyond: nat -> Byte)
    returns (ss: seq<System>, acts: seq<Action>)
    requires Lawful(c) && Blocks(e) && 0 !in text
    requires Generated(a) && Generated(b) && Generated(x) && Distinct(a, b, x)
    requires Generated(id) && Generated(id') && id != id'
    ensures IsRun(c, ss, acts) && |ss| == |acts| + 1 && Crossed(ss[|acts|].nodes, a, b, id)
    ensures ShownAsTyped(e, ss[|acts|].nodes[a].sessions[id], ss[|acts|].nodes[b], text, beyond) <==>
            MasksAgree(e, KeyBlock(e, SecretBytes(ds.seal)), KeyBlock(e, SecretBytes(ds'.seal)), text)
  {
    ss, acts := TwoSessions(c, a, b, x, id, id', ds, ds');
    hide IsRun;
    hide Lawful;
    HeardAcross(e, ss[|acts|].nodes[a].sessions[id], ss[|acts|].nodes[b], ds.seal, ds'.seal, text, beyond);
    hide ShownAsTyped;
    hide MasksAgree;
  }

  /** So with a cipher that tells the two key blocks apart in the first byte of their own encryptions,
      no text of `a` at all, not even an empty one, is shown as typed. */
  lemma CrossedMisread(c: Rsa, e: BlockCipher, a: Guid, b: Guid, x: Guid, id: string, id': string,
                       ds: Draws, ds': Draws, text: seq<Byte>, beyond: nat -> Byte)
    returns (ss: seq<System>, acts: seq<Action>)
    requires Lawful(c) && Blocks(e) && 0 !in text
    requires Generated(a) && Generated(b) && Generated(x) && Distinct(a, b, x)
    requires Generated(id) && Generated(id') && id != id'
    requires var k, k' := KeyBlock(e, SecretBytes(ds.seal)), KeyBlock(e, SecretBytes(ds'.seal));
             e.block(k, k)[0] != e.block(k', k')[0]
    ensures IsRun(c, ss, acts) && |ss| == |acts| + 1 && Crossed(ss[|acts|].nodes, a, b, id)
    ensures !ShownAsTyped(e, ss[|acts|].nodes[a].sessions[id], ss[|acts|].nodes[b], text, beyond)
  {
    ss, acts := CrossedShownIff(c, e, a, b, x, id, id', ds, ds', text, beyond);
    hide *;
    MasksApart(e, SecretBytes(ds.seal), SecretBytes(ds'.seal), text);
  }

  lemma BothCrossed(c: Rsa, n: Node, m: Node, a: Guid, b: Guid, id: string, id': string, e: Entry, f: Entry,
                    nodes: map<Guid, Node>)
    requires a != b && id != id' && e.a == a && e.b == b && f.a == b && f.b == a && e.phase.Open? && f.phase.Open?
    requires a in nodes && nodes[a] == AfterBoth(c, n, id, OriginSess(c, id, e), id', ResponderSess(c, id', f))
    requires b in nodes && nodes[b] == AfterBoth(c, m, id', OriginSess(c, id', f), id, ResponderSess(c, id, e))
    ensures Crossed(nodes, b, a, id) && Crossed(nodes, a, b, id')
    ensures nodes[a].last == Stored(id') && nodes[b].last == Stored(id)
    ensures nodes[b].sessions[id].secret == nodes[a].sessions[id].secret == Is(SecretOf(e.phase.draw))
    ensures nodes[b].sessions[id'].secret == nodes[a].sessions[id'].secret == Is(SecretOf(f.phase.draw))
  {
  }

  /** Two peers are enough: after opening two sessions with each other at once, each hears what the
      other sends on the session it started itself with the secret of the other one. */
  lemma BothCrossedShownIff(c: Rsa, e: BlockCipher, a: Guid, b: Guid, id: string, id': string,
                            ds: Draws, ds': Draws, text: seq<Byte>, beyond: nat -> Byte)
    returns (ss: seq<System>, acts: seq<Action>)
    requires Lawful(c) && Blocks(e) && 0 !in text
    requires Generated(a) && Generated(b) && a != b && Generated(id) && Generated(id') && id != id'
    ensures IsRun(c, ss, acts) && |ss| == |acts| + 1
    ensures var nodes := ss[|acts|].nodes;
            var k, k' := KeyBlock(e, SecretBytes(ds.seal)), KeyBlock(e, SecretBytes(ds'.seal));
            && Crossed(nodes, b, a, id) && Crossed(nodes, a, b, id')
            && (ShownAsTyped(e, nodes[b].sessions[id], nodes[a], text, beyond) <==> MasksAgree(e, k, k', text))
            && (ShownAsTyped(e, nodes[a].sessions[id'], nodes[b], text, beyond) <==> MasksAgree(e, k', k, text))
  {
    ss, acts := CrossOver(c, a, b, id, id', ds, ds');
    hide IsRun;
    hide Lawful;
    var nodes, base := ss[|acts|].nodes, Gathered({a, b}).nodes;
    BothCrossed(c, base[a], base[b], a, b, id, id', EntryOf(a, b, ds), EntryOf(b, a, ds'), nodes);
    hide AfterBoth;
    hide OriginSess;
    hide ResponderSess;
    HeardAcross(e, nodes[b].sessions[id], nodes[a], ds.seal, ds'.seal, text, beyond);
    HeardAcross(e, nodes[a].sessions[id'], nodes[b], ds'.seal, ds.seal, text, beyond);
    hide ShownAsTyped;
    hide MasksAgree;
  }

  /** With the masks apart in the first byte, they agree on no text, either way round. */
  lemma MasksApart(e: BlockCipher, secret: seq<Byte>, other: seq<Byte>, text: seq<Byte>)
    requires Blocks(e) && |secret| >= 8 && |other| >= 8 && 0 !in text
    requires var k, k' := KeyBlock(e, secret), KeyBlock(e, other); e.block(k, k)[0] != e.block(k', k')[0]
    ensures !MasksAgree(e, KeyBlock(e, secret), KeyBlock(e, other), text)
    ensures !MasksAgree(e, KeyBlock(e, other), KeyBlock(e, secret), text)
  {
    var beyond: nat -> Byte := _ => 0;
    hide *;
    Misread(e, secret, other, text, beyond, 0);
    Misread(e, other, secret, text, beyond, 0);
    ReadBackExactly(e, secret, other, text, beyond);
    ReadBackExactly(e, other, secret, text, beyond);
  }

  // ---- such runs ----

  lemma RepeatedName(b: nat)
    requires b < 256
    ensures Generated(IdText(Repeated(16, b)))
    ensures |IdText(Repeated(16, b))| == if b >= 100 then 48 else if b >= 10 then 32 else 16
  {
    var g := Repeated(16, b);
    assert Uuid(g);
    WideRepeated(16, b);
    IdTextLength(g);
  }

  /** Three peers, the secrets "Alpha-Alpha-Alpha" and "Beta-Alpha-Alpha", and a lawful cipher: whatever
      the first peer types, the second shows something else. */
  lemma TextsGoWrong(text: seq<Byte>, beyond: nat -> Byte)
    returns (ss: seq<System>, acts: seq<Action>, a: Guid, b: Guid, id: string)
    requires 0 !in text
    ensures IsRun(Toy(), ss, acts) && |ss| == |acts| + 1 && Crossed(ss[|acts|].nodes, a, b, id)
    ensures Lawful(Toy()) && Blocks(KeyAsMask())
    ensures !ShownAsTyped(KeyAsMask(), ss[|acts|].nodes[a].sessions[id], ss[|acts|].nodes[b], text, beyond)
  {
    var d, d' := Draw(0, 0, 0, 0, 0), Draw(0, 0, 1, 0, 0);
    var e, x := KeyAsMask(), IdText(Repeated(16, 100));
    a, b, id := IdText(Repeated(16, 0)), IdText(Repeated(16, 10)), IdText(Repeated(16, 0));
    RepeatedName(0);
    RepeatedName(10);
    RepeatedName(100);
    assert Distinct(a, b, x) && id != b;
    hide *;
    KeyAsMaskBlocks();
    KeysApart(d, d');
    ToyIsLawful();
    ss, acts := CrossedMisread(Toy(), e, a, b, x, id, b, Draws(d, d, d), Draws(d', d', d'), text, beyond);
  }

  /** And two peers with the same secrets, who open their sessions at once: whatever either types into
      the session the other one started, something else is shown. */
  lemma TextsGoWrongBothWays(text: seq<Byte>, beyond: nat -> Byte)
    returns (ss: seq<System>, acts: seq<Action>, a: Guid, b: Guid, id: string, id': string)
    requires 0 !in text
    ensures IsRun(Toy(), ss, acts) && |ss| == |acts| + 1 && Lawful(Toy()) && Blocks(KeyAsMask())
    ensures var nodes := ss[|acts|].nodes;
            && Crossed(nodes, b, a, id) && Crossed(nodes, a, b, id')
            && !ShownAsTyped(KeyAsMask(), nodes[b].sessions[id], nodes[a], text, beyond)
            && !ShownAsTyped(KeyAsMask(), nodes[a].sessions[id'], nodes[b], text, beyond)
  {
    var d, d' := Draw(0, 0, 0, 0, 0), Draw(0, 0, 1, 0, 0);
    var e := KeyAsMask();
    a, b := IdText(Repeated(16, 0)), IdText(Repeated(16, 10));
    id, id' := a, b;
    RepeatedName(0);
    RepeatedName(10);
    assert a != b;
    hide *;
    KeyAsMaskBlocks();
    KeysApart(d, d');
    ToyIsLawful();
    MasksApart(e, SecretBytes(d), SecretBytes(d'), text);
    ss, acts := BothCrossedShownIff(Toy(), e, a, b, id, id', Draws(d, d, d), Draws(d', d', d'), text, beyond);
  }

  lemma SecretInitial(d: Draw, initial: Byte)
    requires NAMES[d.r] != [] && (NAMES[d.r][0] as int % 256) as Byte == initial
    ensures SecretBytes(d)[0] == initial
  {
    SecretShape(d.r, d.l, d.n);
    assert SecretOf(d)[0] == NAMES[d.r][0];
  }

  lemma KeyHead(s: seq<Byte>)
    requires |s| >= 8
    ensures var k := KeyBlock(KeyAsMask(), s); KeyAsMask().block(k, k)[0] == s[0]
  {
  }

  lemma KeysApart(d: Draw, d': Draw)
    requires d.r == 0 && d'.r == 1 && Blocks(KeyAsMask())
    ensures var e := KeyAsMask();
            var k, k' := KeyBlock(e, SecretBytes(d)), KeyBlock(e, SecretBytes(d'));
            e.block(k, k)[0] != e.block(k', k')[0]
  {
    assert NAMES[0] == "Alpha" && NAMES[1] == "Beta";
    SecretInitial(d, 65);
    SecretInitial(d', 66);
    hide SecretBytes;
    KeyHead(SecretBytes(d));
    KeyHead(SecretBytes(d'));
    hide KeyBlock;
    hide KeyAsMask;
    hide Blocks;
  }
}
