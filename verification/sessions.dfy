/** Session objects and the static `session_tree` that stores them. */
module Sessions {
  import opened Cells
  import opened Records
  import opened Handshake
  import opened Peers

  /** `xs` without the element at place `k`. */
  function Removed<T>(xs: seq<T>, k: nat): (ys: seq<T>)
    requires k < |xs|
    ensures |ys| == |xs| - 1
    ensures forall i | 0 <= i < |ys| :: ys[i] == xs[if i < k then i else i + 1]
    ensures forall x | x in xs && x != xs[k] :: x in ys
    ensures forall x | x in ys :: x in xs
  {
    var ys := xs[..k] + xs[k + 1..];
    assert forall i | 0 <= i < |xs| && i != k :: xs[i] == ys[if i < k then i else i - 1];
    ys
  }

  lemma {:induction false} CoverSize<T>(xs: seq<T>, s: set<T>)
    requires forall x | x in s :: x in xs
    ensures |s| <= |xs|
  {
    if xs == [] {
      assert s == {};
    } else {
      CoverSize(xs[1..], s - {xs[0]});
    }
  }

  /** A list as short as a set it covers has no element twice. */
  lemma RemovedForGood<T>(xs: seq<T>, s: set<T>, k: nat)
    requires k < |xs| && |s| == |xs| && forall x | x in s :: x in xs
    ensures xs[k] !in Removed(xs, k)
  {
    if xs[k] in Removed(xs, k) {
      CoverSize(Removed(xs, k), s);
    }
  }

  /** The list `l` has every element of `m` once and no others. */
  predicate Listed<T(==)>(l: seq<T>, m: set<T>) {
    |l| == |m| && (forall x | x in l :: x in m) && forall x | x in m :: x in l
  }

  lemma ListedOnce<T>(l: seq<T>, m: set<T>, k: nat)
    requires Listed(l, m) && k < |l|
    ensures l[k] !in l[..k]
  {
    RemovedForGood(l, m, k);
    assert forall i | 0 <= i < k :: Removed(l, k)[i] == l[i];
  }

  lemma ListedMore<T>(l: seq<T>, m: set<T>, k: nat, x: T)
    requires Listed(l, m) && k <= |l| && x !in m
    ensures Listed(Inserted(l, k, x), m + {x})
  {
  }

  lemma ListedLess<T>(l: seq<T>, m: set<T>, k: nat)
    requires Listed(l, m) && k < |l|
    ensures Listed(Removed(l, k), m - {l[k]})
  {
    RemovedForGood(l, m, k);
  }

  /** `struct session`, with the guids its peer pointers lead to on record. */
  class Session {
    var localPeer: Cell<RawPeer>
    var foreignPeer: Cell<RawPeer>
    ghost var local: Cell<Guid>
    ghost var foreign: Cell<Guid>
    var localKeypair: Cell<Key>
    var localPublicKey: Cell<string>
    var foreignPublicKey: Cell<string>
    var sharedSecret: Cell<string>
    var sharedSecretLen: Cell<nat>
    var currentState: Cell<State>
    var sessionId: Cell<string>
    var originGuid: Cell<Guid>

    /** `malloc` */
    constructor ()
      ensures localPeer == Unset && foreignPeer == Unset && Value() == BLANK
    {
      localPeer, foreignPeer, local, foreign := Unset, Unset, Unset, Unset;
      localKeypair, localPublicKey, foreignPublicKey := Unset, Unset, Unset;
      sharedSecret, sharedSecretLen, currentState := Unset, Unset, Unset;
      sessionId, originGuid := Unset, Unset;
    }

    ghost function Value(): Sess
      reads this
    {
      Sess(local, foreign, localKeypair, localPublicKey, foreignPublicKey,
           sharedSecret, sharedSecretLen, currentState, sessionId, originGuid)
    }
  }

  /** `p` points at a record of `store` with the guid `g`, or is unset or NULL just as `g`. */
  ghost predicate Shows(p: Cell<RawPeer>, g: Cell<Guid>, store: Peerstore)
    reads store`members, store.members`guid
  {
    match p
    case Is(peer) => peer in store.members && peer.guid.Is? && peer.guid == g
    case Null => g == Null
    case Unset => g == Unset
  }

  /** The session's peer pointers lead to records of the peerstore. */
  ghost predicate Linked(s: Session, store: Peerstore)
    reads s`localPeer, s`foreignPeer, s`local, s`foreign, store`members, store.members`guid
  {
    Shows(s.localPeer, s.local, store) && Shows(s.foreignPeer, s.foreign, store)
  }

  /** The tree is keyed by the sessions' id pointers, so its order tells nothing about ids. */
  class SessionStore {
    var made: bool              // session_tree != NULL
    var entries: seq<Session>
    ghost var contents: map<string, Session>
    ghost var members: set<Session>

    ghost predicate Filed(s: Session)
      reads this, s`sessionId
    {
      s.sessionId.Is? && s.sessionId.value in contents && contents[s.sessionId.value] == s
    }

    ghost predicate Valid()
      reads this, members`sessionId
    {
      && (!made ==> entries == [])
      && Listed(entries, members) && |entries| == |contents|
      && (forall s | s in members :: Filed(s))
      && (forall id | id in contents :: contents[id] in members && contents[id].sessionId == Is(id))
    }

    constructor ()
      ensures Valid() && contents == map[] && members == {}
    {
      made, entries, contents, members := false, [], map[], {};
    }

    /** What the store holds, by id. */
    ghost function Values(): map<string, Sess>
      requires Valid()
      reads this, members
    {
      map id | id in contents :: contents[id].Value()
    }

    /** Nothing but the session under `id` has changed since the values were `was`. */
    lemma ValuesAfter(was: map<string, Sess>, id: string)
      requires Valid() && id in contents
      requires was.Keys + {id} == contents.Keys
      requires forall x | x in contents && x != id :: contents[x].Value() == was[x]
      ensures Values() == was[id := contents[id].Value()]
    {
    }

    /** Since the values were `was`, every connected session has been shut down. */
    lemma ValuesShut(was: map<string, Sess>)
      requires Valid() && was.Keys == contents.Keys
      requires forall x | x in contents :: contents[x].Value() == Shut(was[x])
      ensures Values() == map x | x in was :: Shut(was[x])
    {
    }

    /** `session_count` */
    method Count() returns (n: nat)
      requires Valid()
      ensures n == |contents|
    {
      if !made {
        return 0;
      }
      n := |entries|;
    }

    /** `session_get_session` */
    method GetSession(id: string) returns (found: bool, handle: Session?)
      requires Valid()
      ensures found == (id in contents)
      ensures handle == if found then contents[id] else null
    {
      if !made {
        return false, null;
      }
      var k := 0;
      while k < |entries|
        invariant 0 <= k <= |entries|
        invariant forall i | 0 <= i < k :: entries[i].sessionId != Is(id)
      {
        assert entries[k] in members;
        if entries[k].sessionId.value == id {
          return true, entries[k];
        }
        k := k + 1;
      }
      return false, null;
    }

    /** `session_check_exists_by_id`, which makes the tree if there is none. */
    method CheckExistsById(id: string) returns (found: bool)
      requires Valid()
      modifies this`made
      ensures Valid() && Values() == old(Values()) && found == (id in contents)
    {
      if !made {
        made := true;
        return false;
      }
      var handle;
      found, handle := GetSession(id);
    }

    /** `session_check_exists`: the scan compares peer pointers. */
    method CheckExists(local: RawPeer, foreign: RawPeer) returns (found: bool)
      requires Valid()
      modifies this`made
      ensures Valid() && Values() == old(Values())
      ensures found <==> exists s | s in members :: s.localPeer == Is(local) && s.foreignPeer == Is(foreign)
    {
      made := true;
      var k := 0;
      while k < |entries|
        invariant 0 <= k <= |entries|
        invariant forall i | 0 <= i < k :: !(entries[i].localPeer == Is(local) && entries[i].foreignPeer == Is(foreign))
      {
        if entries[k].localPeer == Is(local) && entries[k].foreignPeer == Is(foreign) {
          return true;
        }
        k := k + 1;
      }
      return false;
    }

    /** `session_add` of a session that is not in the store; the count goes up by one, as its JNXCHECK
        demands. Nothing stops it from adding a second session of a stored id; then there are more
        sessions than ids. */
    method Add(s: Session)
      requires Valid() && s !in members && s.sessionId.Is?
      modifies this
      ensures multiset(entries) == multiset(old(entries)) + multiset{s} && |entries| == old(|entries|) + 1
      ensures s.sessionId.value !in old(contents) ==>
                Valid() && contents == old(contents)[s.sessionId.value := s] && members == old(members) + {s}
                && Values() == old(Values())[s.sessionId.value := s.Value()]
      ensures s.sessionId.value in old(contents) ==> contents == old(contents) && |entries| == |contents| + 1
    {
      ghost var was := Values();
      AddEntry(s);
      if s.sessionId.value !in old(contents) {
        ValuesAfter(was, s.sessionId.value);
      }
    }

    method AddEntry(s: Session)
      requires Valid() && s !in members && s.sessionId.Is?
      modifies this
      ensures multiset(entries) == multiset(old(entries)) + multiset{s}
      ensures s.sessionId.value !in old(contents) ==>
                Valid() && contents == old(contents)[s.sessionId.value := s] && members == old(members) + {s}
      ensures s.sessionId.value in old(contents) ==> contents == old(contents) && |entries| == |contents| + 1
    {
      var k: nat :| k <= |entries|;  // where the address of the new key falls
      hide Listed;
      ListedMore(entries, members, k, s);
      made, entries := true, Inserted(entries, k, s);
      ghost var id := s.sessionId.value;
      if id !in contents {
        FiledMore(id, s);
        contents, members := contents[id := s], members + {s};
      }
    }

    lemma FiledMore(id: string, s: Session)
      requires s.sessionId == Is(id) && id !in contents && s !in members
      requires forall x | x in members :: Filed(x)
      requires forall x | x in contents :: contents[x] in members && contents[x].sessionId == Is(x)
      ensures forall x | x in members + {s} ::
                x.sessionId.Is? && x.sessionId.value in contents[id := s] && contents[id := s][x.sessionId.value] == x
      ensures forall x | x in contents[id := s] ::
                contents[id := s][x] in members + {s} && contents[id := s][x].sessionId == Is(x)
      ensures |contents[id := s]| == |contents| + 1
    {
    }

    /** `session_destroy`: out of the tree by its key pointer. */
    method Destroy(s: Session)
      requires Valid() && s in members
      modifies this
      ensures Valid() && contents == old(contents) - {s.sessionId.value}
      ensures made == old(made) && members == old(members) - {s}
      ensures Values() == old(Values()) - {s.sessionId.value}
    {
      RemoveEntry(s);
    }

    method RemoveEntry(s: Session)
      requires Valid() && s in members
      modifies this
      ensures Valid() && contents == old(contents) - {s.sessionId.value}
      ensures made == old(made) && members == old(members) - {s}
    {
      assert Filed(s);
      var k := 0;
      while entries[k] != s
        invariant 0 <= k < |entries| && s in entries[k..]
        decreases |entries| - k
      {
        k := k + 1;
      }
      hide Listed;
      ListedLess(entries, members, k);
      FiledLess(s);
      entries := Removed(entries, k);
      contents, members := contents - {s.sessionId.value}, members - {s};
    }

    lemma FiledLess(s: Session)
      requires s in members && Filed(s)
      requires forall x | x in members :: Filed(x)
      requires forall x | x in contents :: contents[x] in members && contents[x].sessionId == Is(x)
      ensures var m := contents - {s.sessionId.value};
              && (forall x | x in members - {s} ::
                    x.sessionId.Is? && x.sessionId.value in m && m[x.sessionId.value] == x)
              && (forall x | x in m :: m[x] in members - {s} && m[x].sessionId == Is(x))
              && |m| == |contents| - 1
    {
      assert (contents - {s.sessionId.value}).Keys == contents.Keys - {s.sessionId.value};
    }

    /** `session_get_connected_sessions`: NULL without a tree or without sessions. */
    method GetConnectedSessions() returns (list: Option<seq<Session>>)
      requires Valid()
      ensures list.None? <==> contents == map[]
      ensures list.Some? ==> forall s :: s in list.value <==> s in members && s.currentState == Is(Connected)
      ensures list.Some? ==> forall i, j | 0 <= i < j < |list.value| :: list.value[i] != list.value[j]
    {
      if !made || |entries| == 0 {
        return None;
      }
      var l := [];
      var k := 0;
      while k < |entries|
        invariant 0 <= k <= |entries|
        invariant forall s :: s in l <==> s in entries[..k] && s.currentState == Is(Connected)
        invariant forall i, j | 0 <= i < j < |l| :: l[i] != l[j]
      {
        ListedOnce(entries, members, k);
        if entries[k].currentState == Is(Connected) {
          l := l + [entries[k]];
        }
        assert entries[..k + 1] == entries[..k] + [entries[k]];
        k := k + 1;
      }
      assert entries[..k] == entries;
      return Some(l);
    }
  }

  /** `session_shutdown` */
  method ShutdownSession(s: Session)
    modifies s`currentState
    ensures s.currentState == Is(Closing)
  {
    if s.currentState != Is(Closing) {
      s.currentState := Is(Closing);
    }
  }
}
