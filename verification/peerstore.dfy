/** The peer records and the store that holds them: a list of objects under linear search. */
module Peers {
  import opened Cells
  import opened Records
  import opened Frames
  import opened Handshake

  /** `struct raw_peer` */
  class RawPeer {
    var guid: Cell<Guid>
    var command: Cell<string>
    var ip: Cell<string>
    var port: Cell<string>
    var securePort: Cell<string>
    var peerstring: Cell<string>

    /** `malloc` */
    constructor ()
      ensures ThePulse() == NO_PULSE && ip == Unset
    {
      guid, command, ip, port, securePort, peerstring := Unset, Unset, Unset, Unset, Unset, Unset;
    }

    /** The fields a pulse fills. */
    ghost function ThePulse(): Pulse
      reads this
    {
      Pulse(guid, command, port, securePort, peerstring)
    }

    ghost function Rec(): PeerRec
      requires ip.Is?
      reads this
    {
      PeerRec(command, ip.value, port, securePort, peerstring)
    }
  }

  /** `xs` with `x` put in at place `k`. */
  function Inserted<T>(xs: seq<T>, k: nat, x: T): (ys: seq<T>)
    requires k <= |xs|
    ensures |ys| == |xs| + 1
    ensures multiset(ys) == multiset(xs) + multiset{x}
    ensures x in ys && (forall y | y in xs :: y in ys) && forall y | y in ys :: y == x || y in xs
  {
    var ys := xs[..k] + [x] + xs[k..];
    assert xs == xs[..k] + xs[k..];
    assert ys[k] == x;
    assert forall i | 0 <= i < |xs| :: xs[i] == ys[if i < k then i else i + 1];
    assert forall i | 0 <= i < |ys| && i != k :: ys[i] == xs[if i < k then i else i - 1];
    ys
  }

  /** The static `store` of peerstore.c. The tree is keyed by the records' guid pointers, so its key
      order tells nothing about guids: `entries` lists the records in any order. */
  class Peerstore {
    var entries: seq<RawPeer>
    ghost var contents: map<Guid, RawPeer>
    ghost var members: set<RawPeer>

    /** `p` is complete and filed under its guid. */
    ghost predicate Filed(p: RawPeer)
      reads this, p`guid, p`ip
    {
      p.guid.Is? && p.ip.Is? && p.guid.value in contents && contents[p.guid.value] == p
    }

    ghost predicate Valid()
      reads this, members`guid, members`ip
    {
      && members == (set p | p in entries)
      && |entries| == |contents|
      && (forall p | p in members :: Filed(p))
      && (forall g | g in contents :: contents[g] in members && contents[g].guid == Is(g))
    }

    /** What the store holds, by guid. */
    ghost function View(): map<Guid, PeerRec>
      requires Valid()
      reads this, members
    {
      map g | g in contents :: contents[g].Rec()
    }

    constructor ()
      ensures Valid() && members == {} && View() == map[]
    {
      entries, contents, members := [], map[], {};
    }

    /** `peerstore_get_count` */
    method GetCount() returns (count: nat)
      requires Valid()
      ensures count == |View()|
    {
      count := |entries|;
      assert View().Keys == contents.Keys;
    }

    /** `peerstore_check_peer`: the scan by `strcmp` finds the record filed under `guid`, if any. */
    method CheckPeer(guid: Guid) returns (found: bool, inpeer: RawPeer?)
      requires Valid()
      ensures found == (guid in View()) && (guid in View() <==> guid in contents)
      ensures inpeer == if found then contents[guid] else null
    {
      var k := 0;
      while k < |entries|
        invariant 0 <= k <= |entries|
        invariant forall i | 0 <= i < k :: entries[i].guid != Is(guid)
      {
        assert entries[k] in members;
        if entries[k].guid.value == guid {
          return true, entries[k];
        }
        k := k + 1;
      }
      return false, null;
    }

    /** `peerstore_add_peer` of a record that is not in the store. Nothing stops it from adding a second
        record of a stored guid; then there are more records than guids. */
    method AddPeer(rp: RawPeer)
      requires Valid() && rp !in members && rp.guid.Is? && rp.ip.Is?
      modifies this
      ensures multiset(entries) == multiset(old(entries)) + multiset{rp}
      ensures rp.guid.value !in old(contents) ==>
                Valid() && contents == old(contents)[rp.guid.value := rp] && members == old(members) + {rp}
                && View() == old(View())[rp.guid.value := rp.Rec()]
      ensures rp.guid.value in old(contents) ==> contents == old(contents) && |entries| == |contents| + 1
    {
      AddEntry(rp);
    }

    method AddEntry(rp: RawPeer)
      requires Valid() && rp !in members && rp.guid.Is? && rp.ip.Is?
      modifies this
      ensures multiset(entries) == multiset(old(entries)) + multiset{rp}
      ensures rp.guid.value !in old(contents) ==>
                Valid() && contents == old(contents)[rp.guid.value := rp] && members == old(members) + {rp}
      ensures rp.guid.value in old(contents) ==> contents == old(contents) && |entries| == |contents| + 1
    {
      var k: nat :| k <= |entries|;  // where the address of the new key falls
      entries := Inserted(entries, k, rp);
      if rp.guid.value !in contents {
        contents := contents[rp.guid.value := rp];
        members := members + {rp};
      }
    }

    /** `peerstore_update_peer`: everything but the guid and the ip moves over. */
    method UpdatePeer(newPeer: RawPeer, updated: RawPeer)
      requires Valid() && updated in members && newPeer !in members && newPeer.guid == updated.guid
      modifies updated`command, updated`port, updated`securePort, updated`peerstring
      ensures Valid()
      ensures updated.guid.Is? && updated.ip.Is?
      ensures View() == old(View())[updated.guid.value :=
                        PeerRec(newPeer.command, updated.ip.value, newPeer.port, newPeer.securePort,
                                newPeer.peerstring)]
    {
      assert Filed(updated);
      updated.command := newPeer.command;
      updated.port := newPeer.port;
      updated.securePort := newPeer.securePort;
      updated.peerstring := newPeer.peerstring;
    }

    /** Nothing `peerstore_update_peer` copies or frees is uninitialised. */
    static predicate CanUpdate(newPeer: RawPeer, updated: RawPeer): (b: bool)
      requires updated.ip.Is? && newPeer.command.Is? && newPeer.port.Is? && newPeer.guid.Is?
      reads newPeer, updated
      ensures b == (Full(newPeer.ThePulse()) && Replaceable(updated.Rec()))
    {
      && newPeer.securePort != Unset && newPeer.peerstring != Unset
      && updated.command != Unset && updated.port != Unset
      && updated.securePort != Unset && updated.peerstring != Unset
    }

    /** Add the complete pulse record `rp`, or update the record of its guid; `ok` is false where that
        copies or frees unset fields. */
    method AddOrUpdate(rp: RawPeer) returns (ok: bool)
      requires Valid() && rp !in members && Complete(rp.ThePulse()) && rp.ip.Is?
      modifies this, members`command, members`port, members`securePort, members`peerstring
      ensures ok == Takeable(old(View()), old(rp.ThePulse()))
      ensures Valid() && View() == if ok then Absorbed(old(View()), old(rp.ThePulse()), old(rp.ip.value))
                                   else old(View())
      ensures members == old(members) || members == old(members) + {rp}
      ensures forall g | g in old(contents) :: g in contents && contents[g] == old(contents[g])
    {
      var found, handle := CheckPeer(rp.guid.value);
      if !found {
        AddPeer(rp);
        return true;
      }
      assert Filed(handle);
      ok := CanUpdate(rp, handle);
      if ok {
        UpdatePeer(rp, handle);
      }
    }
  }

  // ---- the history of a peerstore ----

  /** What an accepted pulse, or none, does to the peerstore. */
  function TakeIn(peers: map<Guid, PeerRec>, pulse: Option<Pulse>, ip: string): map<Guid, PeerRec>
    requires pulse.Some? ==> Complete(pulse.value)
  {
    if pulse.Some? then Absorbed(peers, pulse.value, ip) else peers
  }

  /** A multicast message: the pulse accepted from it, if one was, and the address it came from. */
  datatype Heard = Heard(pulse: Option<Pulse>, ip: string) {
    predicate Valid() {
      pulse.Some? ==> Complete(pulse.value)
    }
  }

  predicate AllValid(h: seq<Heard>) {
    forall i | 0 <= i < |h| :: h[i].Valid()
  }

  /** The peerstore after hearing `h` from empty. */
  function AfterHearing(h: seq<Heard>): map<Guid, PeerRec>
    requires AllValid(h)
  {
    if h == [] then map[]
    else TakeIn(AfterHearing(h[..|h| - 1]), h[|h| - 1].pulse, h[|h| - 1].ip)
  }

  /** Message `i` is an accepted pulse of the peer `g`. */
  predicate From(h: seq<Heard>, i: nat, g: Guid) {
    i < |h| && h[i].pulse.Some? && h[i].pulse.value.guid == Is(g)
  }

  ghost predicate FirstFrom(h: seq<Heard>, i: nat, g: Guid) {
    From(h, i, g) && forall j: nat | j < i :: !From(h, j, g)
  }

  ghost predicate LastFrom(h: seq<Heard>, i: nat, g: Guid) {
    From(h, i, g) && forall j: nat | i < j :: !From(h, j, g)
  }

  /** What the first and the last of a peer's pulses make of its record. */
  function FromPulses(first: Heard, last: Heard): PeerRec
    requires last.pulse.Some?
  {
    var p := last.pulse.value;
    PeerRec(p.command, first.ip, p.port, p.securePort, p.peerstring)
  }

  /** The peerstore is its history summed up: it holds exactly the peers heard from, each with the
      address its first accepted pulse came from and all else as in its last one. */
  lemma {:induction false} HistoryKept(h: seq<Heard>, g: Guid) returns (first: nat, last: nat)
    requires AllValid(h)
    ensures g in AfterHearing(h) <==> exists i: nat :: From(h, i, g)
    ensures g in AfterHearing(h) ==> FirstFrom(h, first, g) && LastFrom(h, last, g)
                                     && AfterHearing(h)[g] == FromPulses(h[first], h[last])
  {
    first, last := 0, 0;
    if h != [] {
      var n := |h| - 1;
      var before := h[..n];
      first, last := HistoryKept(before, g);
      assert forall i: nat | i < n :: From(before, i, g) == From(h, i, g);
      if From(h, n, g) {
        if g !in AfterHearing(before) {
          first := n;
        }
        last := n;
      } else {
        assert g in AfterHearing(h) <==> g in AfterHearing(before);
      }
    }
  }

  function GuidsHeard(h: seq<Heard>): set<Guid>
    requires AllValid(h)
  {
    set i | 0 <= i < |h| && h[i].pulse.Some? :: h[i].pulse.value.guid.value
  }

  /** The number of records is the number of distinct guids heard. */
  lemma CountIsDistinctGuids(h: seq<Heard>)
    requires AllValid(h)
    ensures AfterHearing(h).Keys == GuidsHeard(h) && |AfterHearing(h)| == |GuidsHeard(h)|
  {
    forall g: Guid
      ensures g in AfterHearing(h) <==> g in GuidsHeard(h)
    {
      var first, last := HistoryKept(h, g);
      if i: nat :| From(h, i, g) {
        assert 0 <= i < |h| && h[i].pulse.Some?;
      }
    }
  }

  // ---- the same over the texts of the messages ----

  /** A multicast message as received. */
  datatype Message = Message(text: string, ip: string)

  /** The complete pulse in a message, if it is one. */
  function AcceptedPulse(text: string): (p: Option<Pulse>)
    ensures p.Some? ==> Complete(p.value)
  {
    match ParsePulse(text)
    case PulseOkay(p) => if Complete(p) then Some(p) else None
    case _ => None
  }

  function Noted(m: Message): (n: Heard)
    ensures n.Valid()
  {
    Heard(AcceptedPulse(m.text), m.ip)
  }

  function NotedAll(ms: seq<Message>): (h: seq<Heard>)
    ensures |h| == |ms| && AllValid(h) && forall i | 0 <= i < |ms| :: h[i] == Noted(ms[i])
  {
    seq(|ms|, i requires 0 <= i < |ms| => Noted(ms[i]))
  }

  /** The peerstore after handling the messages from empty; None where one of them is undefined. */
  function AfterMessages(ms: seq<Message>): Option<map<Guid, PeerRec>> {
    if ms == [] then Some(map[])
    else
      match AfterMessages(ms[..|ms| - 1])
      case None => None
      case Some(peers) => HearPulse(peers, ms[|ms| - 1].text, ms[|ms| - 1].ip)
  }

  lemma NotedPrefix(ms: seq<Message>, n: nat)
    requires n <= |ms|
    ensures NotedAll(ms)[..n] == NotedAll(ms[..n])
  {
  }

  /** Handling raw messages one by one, where that is defined, amounts to absorbing the pulses accepted
      from them. */
  lemma {:induction false} MessagesAsHeard(ms: seq<Message>)
    ensures AfterMessages(ms).Some? ==> AfterMessages(ms).value == AfterHearing(NotedAll(ms))
  {
    if ms != [] {
      MessagesAsHeard(ms[..|ms| - 1]);
      NotedPrefix(ms, |ms| - 1);
    }
  }

  /** The message is refused properly or is a complete pulse. */
  predicate Understood(m: Message) {
    match ParsePulse(m.text)
    case PulseOkay(p) => Complete(p)
    case PulseFault => false
    case _ => true
  }

  /** Messages `i` and `j` are accepted pulses of one peer. */
  predicate SamePeer(h: seq<Heard>, i: nat, j: nat) {
    i < |h| && j < |h| && h[i].pulse.Some? && h[j].pulse.Some? && h[i].pulse.value.guid == h[j].pulse.value.guid
  }

  /** A peer heard from more than once has only sent full pulses. */
  predicate RepeatsFull(h: seq<Heard>) {
    forall i, j | 0 <= i < j < |h| && SamePeer(h, i, j) :: Full(h[i].pulse.value) && Full(h[j].pulse.value)
  }

  /** After a history whose repeats are full, one more complete pulse can be taken in exactly when the
      repeats are still full. */
  lemma TakeableIff(h: seq<Heard>, p: Pulse, ip: string)
    requires AllValid(h) && Complete(p) && RepeatsFull(h)
    ensures Takeable(AfterHearing(h), p) <==> RepeatsFull(h + [Heard(Some(p), ip)])
  {
    var g, h' := p.guid.value, h + [Heard(Some(p), ip)];
    var first, last := HistoryKept(h, g);
    if g in AfterHearing(h) {
      assert SamePeer(h', last, |h|);
      assert Replaceable(AfterHearing(h)[g]) <==> Full(h[last].pulse.value);
    }
    if Takeable(AfterHearing(h), p) {
      forall i, j | 0 <= i < j < |h'| && SamePeer(h', i, j)
        ensures Full(h'[i].pulse.value) && Full(h'[j].pulse.value)
      {
        if j < |h| {
          assert SamePeer(h, i, j);
        } else {
          assert From(h, i, g);
          assert i != last ==> SamePeer(h, i, last);
        }
      }
    }
  }

  lemma RepeatsOfPrefix(h: seq<Heard>, n: nat)
    requires RepeatsFull(h) && n <= |h|
    ensures RepeatsFull(h[..n])
  {
    forall i, j | 0 <= i < j < n && SamePeer(h[..n], i, j)
      ensures Full(h[i].pulse.value) && Full(h[j].pulse.value)
    {
      assert SamePeer(h, i, j);
    }
  }

  predicate AllUnderstood(ms: seq<Message>) {
    forall i | 0 <= i < |ms| :: Understood(ms[i])
  }

  /** One message more. */
  lemma LastMessage(ms: seq<Message>)
    requires ms != []
    ensures var before, m := ms[..|ms| - 1], ms[|ms| - 1];
            && (AllUnderstood(ms) <==> AllUnderstood(before) && Understood(m))
            && NotedAll(ms) == NotedAll(before) + [Noted(m)]
            && (AfterMessages(ms).Some? <==>
                  AfterMessages(before).Some? && HearPulse(AfterHearing(NotedAll(before)), m.text, m.ip).Some?)
  {
    hide Understood;
    hide HearPulse;
    var before, m := ms[..|ms| - 1], ms[|ms| - 1];
    MessagesAsHeard(before);
    assert AllUnderstood(before) && Understood(m) ==> AllUnderstood(ms);
  }

  /** Handling the messages is defined if and only if each is refused properly or is a complete pulse,
      and the peers heard from more than once have only sent full ones. */
  lemma {:induction false} MessagesDefinedIff(ms: seq<Message>)
    ensures AfterMessages(ms).Some? <==> AllUnderstood(ms) && RepeatsFull(NotedAll(ms))
  {
    if ms != [] {
      hide *;
      var before, m := ms[..|ms| - 1], ms[|ms| - 1];
      var h := NotedAll(before);
      MessagesDefinedIff(before);
      LastMessage(ms);
      if RepeatsFull(h + [Noted(m)]) {
        RepeatsOfPrefix(h + [Noted(m)], |h|);
        assert (h + [Noted(m)])[..|h|] == h;
      }
      if RepeatsFull(h) && Understood(m) {
        LastHeard(h, m);
      }
    }
  }

  lemma LastHeard(h: seq<Heard>, m: Message)
    requires AllValid(h) && RepeatsFull(h) && Understood(m)
    ensures HearPulse(AfterHearing(h), m.text, m.ip).Some? <==> RepeatsFull(h + [Noted(m)])
  {
    if AcceptedPulse(m.text).Some? {
      TakeableIff(h, AcceptedPulse(m.text).value, m.ip);
    } else {
      var h' := h + [Noted(m)];
      forall i, j | 0 <= i < j < |h'| && SamePeer(h', i, j)
        ensures Full(h'[i].pulse.value) && Full(h'[j].pulse.value)
      {
        assert SamePeer(h, i, j);
      }
    }
  }
}
