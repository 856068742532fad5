/** Any number of peers and the frames in flight between them: steps and whole runs. */
module Network {
  import opened Cells
  import opened Records
  import opened Frames
  import opened Generators
  import opened Handshake

  /** The running peers by guid, and the frames sent but not yet delivered, in no particular order. */
  datatype System = System(nodes: map<Guid, Node>, bag: seq<Packet>)

  datatype Action =
    | Start(at: Guid, foreign: Guid, id: string, draw: Draw)  // the user asks for a session
    | Deliver(i: nat, draw: Draw)                             // one frame in flight reaches its peer
    | Interrupt(at: Guid)                                     // SIGINT
    | Hear(at: Guid, text: string, ip: string)                // a multicast message arrives
    | Lose(i: nat)                                            // one frame in flight never arrives

  predicate Fresh(nodes: map<Guid, Node>, id: string) {
    forall g | g in nodes :: id !in nodes[g].sessions
  }

  /** What a session needs to come about: its peer is running, is another one, knows both ends (as
      README.md:29 demands), and the random id is a new one. */
  ghost predicate CanStart(nodes: map<Guid, Node>, at: Guid, foreign: Guid, id: string) {
    && at in nodes
    && (WillStart(nodes[at], foreign) ==>
          && foreign != at && foreign in nodes
          && at in nodes[foreign].peers && foreign in nodes[foreign].peers
          && Generated(id) && Fresh(nodes, id))
  }

  ghost predicate Enabled(sys: System, act: Action) {
    match act
    case Start(at, foreign, id, _) => CanStart(sys.nodes, at, foreign, id)
    case Deliver(i, _) => i < |sys.bag| && sys.bag[i].dest in sys.nodes
    case Interrupt(at) => at in sys.nodes
    case Hear(at, _, _) => at in sys.nodes
    case Lose(i) => i < |sys.bag|
  }

  function Without<T>(bag: seq<T>, i: nat): seq<T>
    requires i < |bag|
  {
    bag[..i] + bag[i + 1..]
  }

  datatype Fired = Fired(sys: System, sent: seq<Packet>) | Broken

  /** Install what a peer's step made of it. */
  function Install(nodes: map<Guid, Node>, g: Guid, bag: seq<Packet>, step: Step): Fired {
    match step
    case Fault => Broken
    case Stepped(n, sent) => Fired(System(nodes[g := n], bag + sent), sent)
  }

  ghost function Fire(c: Rsa, sys: System, act: Action): Fired
    requires Enabled(sys, act)
  {
    match act
    case Start(at, foreign, id, d) =>
      Install(sys.nodes, at, sys.bag, StartSession(c, sys.nodes[at], foreign, id, d))
    case Deliver(i, d) =>
      var p := sys.bag[i];
      var n := sys.nodes[p.dest];
      Install(sys.nodes, p.dest, Without(sys.bag, i), Receive(c, n, Orient(n.guid, n.peers.Keys, p.wire), d))
    case Interrupt(at) =>
      Fired(sys.(nodes := sys.nodes[at := Shutdown(sys.nodes[at])]), [])
    case Hear(at, text, ip) =>
      var n := sys.nodes[at];
      (match HearPulse(n.peers, text, ip)
       case None => Broken
       case Some(peers) => Fired(sys.(nodes := sys.nodes[at := n.(peers := peers)]), []))
    case Lose(i) =>
      Fired(sys.(bag := Without(sys.bag, i)), [])
  }

  /** The one peer that takes part in a step, if any does. */
  function Mover(sys: System, act: Action): Option<Guid> {
    match act
    case Start(at, _, _, _) => Some(at)
    case Deliver(i, _) => if i < |sys.bag| then Some(sys.bag[i].dest) else None
    case Interrupt(at) => Some(at)
    case Hear(at, _, _) => Some(at)
    case Lose(_) => None
  }

  lemma BagWithout<T>(bag: seq<T>, i: nat)
    requires i < |bag|
    ensures multiset(Without(bag, i)) + multiset{bag[i]} == multiset(bag)
  {
    assert bag == bag[..i] + [bag[i]] + bag[i + 1..];
  }

  /** No peer appears or goes, only the one that moves changes, and frames are conserved: what was in
      flight and what is sent is in flight, but for the one frame that arrives or is lost. */
  lemma StepConserves(c: Rsa, sys: System, act: Action)
    requires Enabled(sys, act) && Fire(c, sys, act).Fired?
    ensures var f := Fire(c, sys, act);
            && f.sys.nodes.Keys == sys.nodes.Keys
            && (forall g | g in sys.nodes && Mover(sys, act) != Some(g) :: f.sys.nodes[g] == sys.nodes[g])
            && multiset(f.sys.bag) + (if act.Deliver? || act.Lose? then multiset{sys.bag[act.i]} else multiset{}) ==
               multiset(sys.bag) + multiset(f.sent)
            && (f.sent != [] ==> act.Start? || act.Deliver?)
  {
    hide StartSession;
    hide Receive;
    hide HearPulse;
    if act.Deliver? || act.Lose? {
      BagWithout(sys.bag, act.i);
      hide Without;
    }
  }

  /** SIGINT can come at any time and closes the connected sessions of its peer, no others. */
  lemma InterruptFires(c: Rsa, sys: System, at: Guid)
    requires at in sys.nodes
    ensures Enabled(sys, Interrupt(at)) && Fire(c, sys, Interrupt(at)).Fired?
    ensures var n, m := sys.nodes[at], Fire(c, sys, Interrupt(at)).sys.nodes[at];
            && m.guid == n.guid && m.peers == n.peers && m.last == n.last && m.sessions.Keys == n.sessions.Keys
            && forall id | id in n.sessions ::
                 var s := n.sessions[id];
                 m.sessions[id] == if s.state == Is(Connected) then s.(state := Is(Closing)) else s
  {
    ShutdownCloses(sys.nodes[at]);
    hide Shutdown;
  }

  /** A multicast message can come at any time and leaves the sessions alone. */
  lemma HearFires(c: Rsa, sys: System, at: Guid, text: string, ip: string)
    requires at in sys.nodes
    ensures Enabled(sys, Hear(at, text, ip))
    ensures var f, n := Fire(c, sys, Hear(at, text, ip)), sys.nodes[at];
            match HearPulse(n.peers, text, ip)
            case None => f.Broken?
            case Some(peers) =>
              f.Fired? && at in f.sys.nodes && f.sys.nodes[at] == Node(n.guid, peers, n.sessions, n.last)
  {
    hide HearPulse;
  }

  /** The action is not the receipt of a multicast message whose handling is undefined. Anyone can send
      such messages; `HearingDefinedIff` says which they are. */
  ghost predicate Harmless(sys: System, act: Action)
    requires Enabled(sys, act)
  {
    act.Hear? ==> HearPulse(sys.nodes[act.at].peers, act.text, act.ip).Some?
  }

  ghost predicate StepsTo(c: Rsa, sys: System, act: Action, sys': System) {
    Enabled(sys, act) && Fire(c, sys, act).Fired? && Fire(c, sys, act).sys == sys'
  }

  /** Peers with generated guids and any peerstores, no session anywhere and nothing in flight. */
  ghost predicate Initial(sys: System) {
    && sys.bag == []
    && forall g | g in sys.nodes ::
         Generated(g) && sys.nodes[g].guid == g && sys.nodes[g].sessions == map[] && sys.nodes[g].last == NoLast
  }

  /** A run: states `ss` linked by actions `acts`. */
  ghost predicate IsRun(c: Rsa, ss: seq<System>, acts: seq<Action>) {
    && |ss| == |acts| + 1
    && Initial(ss[0])
    && forall i | 0 <= i < |acts| :: StepsTo(c, ss[i], acts[i], ss[i + 1])
  }

  ghost predicate Lossless(acts: seq<Action>) {
    forall i | 0 <= i < |acts| :: !acts[i].Lose?
  }
}
