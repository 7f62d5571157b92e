/**
 The functions of blocked.c on the server's own fields, each proved against
 the value it gives the whole state. The loop over a ready key walks the
 key's queue by node address while clients leave it and join it again.
 */
module BlockedServer {
  import opened Blocked
  import opened BlockedInv
  import opened BlockedRuns

  /** What lookupKeyReadWithFlags finds. */
  datatype Lookup = Missing | Found(ty: ObjType)

  /**
   The world outside: what the key holds at each turn, and what running each
   turn's command comes to.
   */
  datatype World = World(lookup: nat -> Lookup, outcome: nat -> Outcome)

  ghost predicate WorldOk(w: World) {
    forall n :: OutcomeOk(w.outcome(n))
  }

  /** Is this client to be served, given what the key holds? */
  predicate Eligible(cl: Client, o: Lookup) {
    (o.Found? && cl.btype == BlockedTypeOf(o.ty)) || cl.nokey
  }

  /** One client's turn at a ready key. */
  function Turn(s: State, c: ClientId, n: nat, w: World): State {
    if c in s.clients && s.clients[c].btype in s.byType && Eligible(s.clients[c], w.lookup(n))
    then Serve(s, c, w.outcome(n))
    else s
  }

  /** Everyone in the list has one turn, in order. */
  function Turns(s: State, cs: seq<ClientId>, n: nat, w: World): State
    decreases |cs|
  {
    if cs == [] then s
    else
      var i := |cs| - 1;
      Turn(Turns(s, cs[..i], n, w), cs[i], n + i, w)
  }

  class Server {
    var clients: map<ClientId, Client>
    var blockingKeys: map<Slot, seq<Node>>
    var unblockOnNokey: map<Slot, nat>
    var dbReadyKeys: set<Slot>
    var readyKeys: seq<Slot>
    var blockedClients: int
    var blockedByType: map<BType, int>
    var unblockedClients: seq<ClientId>
    var nextId: nat
    var keyspace: set<Slot>
    ghost var taken: seq<Slot>  // ready keys already moved to the list being worked through

    ghost function View(): State
      reads this
    {
      State(clients, blockingKeys, unblockOnNokey, dbReadyKeys, taken + readyKeys,
            blockedClients, blockedByType, unblockedClients, nextId, keyspace)
    }

    method BlockClient(c: ClientId, bt: BType)
      requires c in clients && bt in blockedByType
      modifies this
      ensures View() == Blocked.BlockClient(old(View()), c, bt) && taken == old(taken)
    {
      clients := clients[c := clients[c].(blocked := true, btype := bt)];
      blockedClients := blockedClients + 1;
      blockedByType := blockedByType[bt := blockedByType[bt] + 1];
    }

    method BlockForKey(c: ClientId, k: Key, nokey: bool)
      requires c in clients
      modifies this
      ensures View() == AddKey(old(View()), c, k, nokey) && taken == old(taken)
      ensures c in clients
    {
      var cl := clients[c];
      if k in cl.keys {
        return;
      }
      var p := Slot(cl.db, k);
      var l := if p in blockingKeys then blockingKeys[p] else [];
      blockingKeys := blockingKeys[p := l + [Node(nextId, c)]];
      clients := clients[c := cl.(keys := cl.keys[k := nextId])];
      nextId := nextId + 1;
      if nokey {
        unblockOnNokey := unblockOnNokey[p := 1 + if p in unblockOnNokey then unblockOnNokey[p] else 0];
      }
    }

    method BlockForKeys(c: ClientId, bt: BType, keys: seq<Key>, nokey: bool)
      requires c in clients && bt in blockedByType
      modifies this
      ensures View() == Blocked.BlockForKeys(old(View()), c, bt, keys, nokey) && taken == old(taken)
    {
      hide AddKey;
      ghost var s := View();
      for j := 0 to |keys|
        invariant c in clients && taken == old(taken)
        invariant View() == AddKeys(s, c, keys[..j], nokey)
      {
        BlockForKey(c, keys[j], nokey);
        assert keys[..j + 1][..j] == keys[..j];
      }
      assert keys[..|keys|] == keys;
      AddKeysFrame(s, c, keys, nokey);
      clients := clients[c := clients[c].(nokey := nokey, pending := true)];
      BlockClient(c, bt);
    }

    method ReleaseBlockedEntry(c: ClientId, k: Key, removeKey: bool)
      requires Releasable(View(), c, k)
      modifies this
      ensures var t := Release(old(View()), c, k);
              View() == if removeKey then Forget(t, c, k) else t
      ensures taken == old(taken)
    {
      hide Unlink;
      var cl := clients[c];
      var p := Slot(cl.db, k);
      var l := Unlink(blockingKeys[p], cl.keys[k]);
      if |l| == 0 {
        blockingKeys := blockingKeys - {p};
        unblockOnNokey := unblockOnNokey - {p};
      } else {
        blockingKeys := blockingKeys[p := l];
        if cl.nokey {
          unblockOnNokey := if unblockOnNokey[p] == 1 then unblockOnNokey - {p}
                            else unblockOnNokey[p := unblockOnNokey[p] - 1];
        }
      }
      if removeKey {
        clients := clients[c := cl.(keys := cl.keys - {k})];
      }
    }

    /** The client leaves every queue it stands in, whichever key comes first. */
    method UnblockClientWaitingData(c: ClientId)
      requires c in clients && Mirrored(View()) && NokeyOk(View())
      modifies this
      ensures View() == Leave(old(View()), c, old(clients[c].keys.Keys)) && taken == old(taken)
    {
      hide Mirrored, NokeyOk, Parted, Releasable, Release;
      ghost var s := View();
      PartedNothing(s, c);
      var todo := clients[c].keys.Keys;
      ghost var gone: set<Key> := {};
      while todo != {}
        invariant taken == old(taken)
        invariant gone + todo == s.clients[c].keys.Keys && gone !! todo
        invariant View() == Parted(s, c, gone)
        decreases todo
      {
        var k :| k in todo;
        PartedFrame(s, c, gone);
        ReleaseParts(s, c, gone, k);
        ReleaseBlockedEntry(c, k, false);
        todo := todo - {k};
        gone := gone + {k};
      }
      PartedFrame(s, c, gone);
      assert gone == s.clients[c].keys.Keys;
      assert s.clients[c].keys - gone == map[];
      clients := clients[c := clients[c].(keys := map[])];
    }

    method QueueClientForReprocessing(c: ClientId)
      requires c in clients
      modifies this
      ensures View() == Requeue(old(View()), c) && taken == old(taken)
    {
      if !clients[c].queued {
        clients := clients[c := clients[c].(queued := true)];
        unblockedClients := unblockedClients + [c];
      }
    }

    method UnblockClient(c: ClientId, queue: bool)
      requires c in clients && Inv(View()) && clients[c].blocked && clients[c].btype in blockedByType
      modifies this
      ensures View() == Unblock(old(View()), c, queue) && taken == old(taken)
    {
      hide Mirrored, NokeyOk, CountersOk, ReadyOk, UnblockedOk, Parted;
      ghost var s := View();
      ghost var all := clients[c].keys.Keys;
      LeaveClients(s, c, all);
      LeaveFrame(s, c, all);
      if OnKeys(clients[c].btype) {
        UnblockClientWaitingData(c);
      } else {
        FreeOfKeys(s, c);
        LeaveNothing(s, c);
      }
      assert View() == Leave(s, c, all);
      var bt := clients[c].btype;
      blockedClients := blockedClients - 1;
      blockedByType := blockedByType[bt := blockedByType[bt] - 1];
      clients := clients[c := clients[c].(blocked := false, btype := NotBlocked, nokey := false)];
      if queue {
        QueueClientForReprocessing(c);
      }
    }

    method SignalKeyAsReadyLogic(p: Slot, ty: ObjType, deleted: bool)
      requires blockedByType.Keys >= {OnList, OnZset, OnStream}
      modifies this
      ensures View() == Signal(old(View()), p, ty, deleted) && taken == old(taken)
    {
      var bt := BlockedTypeOf(ty);
      if bt == NotBlocked {
        return;
      }
      if blockedByType[bt] == 0 {
        return;
      }
      if deleted {
        if p !in unblockOnNokey {
          return;
        }
      } else {
        if p !in blockingKeys {
          return;
        }
      }
      if p in dbReadyKeys {
        return;
      }
      dbReadyKeys := dbReadyKeys + {p};
      readyKeys := readyKeys + [p];
      assert taken + readyKeys == old(taken + readyKeys) + [p];
    }

    /** The command of a client is run again, with the outcome given. */
    method ProcessCommandAgain(c: ClientId, o: Outcome)
      requires c in clients && blockedByType.Keys >= {OnList, OnZset, OnStream}
      requires OutcomeOk(o)
      modifies this
      ensures View() == Reprocess(old(View()), c, o) && taken == old(taken)
    {
      hide Blocked.BlockForKeys, Signal, Requeue;
      clients := clients[c := clients[c].(pending := false)];
      ghost var s := View();
      match o
      case Done(sigs, left) =>
        for j := 0 to |sigs|
          invariant taken == old(taken)
          invariant View() == Signals(s, sigs[..j])
        {
          SignalsFrame(s, sigs[..j]);
          assert sigs[..j + 1][..j] == sigs[..j];
          SignalKeyAsReadyLogic(sigs[j].p, sigs[j].ty, sigs[j].deleted);
        }
        assert sigs[..|sigs|] == sigs;
        SignalsFrame(s, sigs);
        keyspace := left;
        QueueClientForReprocessing(c);
      case Again(expired, bt, ks, nokey) =>
        for j := 0 to |expired|
          invariant taken == old(taken)
          invariant View() == ExpireKeys(s, expired[..j])
        {
          ExpireFrame(s, expired[..j]);
          assert expired[..j + 1][..j] == expired[..j];
          if expired[j].p in keyspace {
            keyspace := keyspace - {expired[j].p};
            SignalKeyAsReadyLogic(expired[j].p, expired[j].ty, true);
          }
        }
        assert expired[..|expired|] == expired;
        ExpireFrame(s, expired);
        BlockForKeys(c, bt, ks, nokey);
    }

    method UnblockClientOnKey(c: ClientId, k: Key, o: Outcome)
      requires Inv(View()) && c in clients && k in clients[c].keys && OutcomeOk(o)
      modifies this
      ensures old(clients[c].btype) in old(blockedByType)
      ensures View() == Serve(old(View()), c, o) && taken == old(taken)
    {
      hide Inv, Unblock, Reprocess, Releasable, Release, Leave, Unmark;
      ghost var s := View();
      ServedKey(s, c, k);
      ReleaseBlockedEntry(c, k, true);
      UnblockClient(c, false);
      UnblockFrame(s, c, false);
      if clients[c].pending {
        ProcessCommandAgain(c, o);
      }
    }

    /** One turn of the loop below. */
    method TakeTurn(receiver: ClientId, key: Key, n: nat, w: World)
      requires Inv(View()) && WorldOk(w) && receiver in clients && key in clients[receiver].keys
      modifies this
      ensures Inv(View()) && taken == old(taken)
      ensures View() == Turn(old(View()), receiver, n, w)
    {
      hide Inv, Turn, Serve;
      ghost var s := View();
      ServedKey(s, receiver, key);
      WaitingClient(s, receiver, key);
      TurnIs(s, receiver, n, w);
      TurnInv(s, receiver, n, w);
      if Eligible(clients[receiver], w.lookup(n)) {
        UnblockClientOnKey(receiver, key, w.outcome(n));
      }
    }

    /**
     handleClientsBlockedOnKey. The iterator holds the address of the next
     node, taken before the current client is served; `count` keeps clients
     that block again from getting a second turn.
     */
    method HandleClientsBlockedOnKey(p: Slot, w: World, turn: nat)
      requires Inv(View()) && WorldOk(w)
      modifies this
      ensures Inv(View()) && taken == old(taken)
      ensures View() == Turns(old(View()), Waiters(old(View()), p), turn, w)
    {
      hide Inv, Turn, Turns, Serve, Layout, Clients;
      ghost var s := View();
      TurnsNone(s, turn, w);
      WaitersAre(s, p);
      if p !in blockingKeys {
        return;
      }
      ghost var l := blockingKeys[p];
      ghost var cs := Waiters(s, p);
      assert cs[..0] == [];
      QueueNotEmpty(s, p);
      LayoutStart(l);
      var next := At(blockingKeys[p][0].id);
      var count := |blockingKeys[p]|;
      var n := turn;
      ghost var kept: seq<Node>, added: seq<Node> := [], [];
      while next.At? && count > 0
        invariant 0 <= count <= |l| && n == turn + |l| - count && taken == old(taken)
        invariant Inv(View())
        invariant View() == Turns(s, cs[..|l| - count], turn, w)
        invariant Layout(Queue(View(), p), kept, l, |l| - count, added)
        invariant count > 0 ==> next == At(l[|l| - count].id)
        invariant count == 0 && next.At? ==> added != [] && next.id == added[0].id
        decreases count
      {
        ghost var i := |l| - count;
        ghost var t := View();
        var q := if p in blockingKeys then blockingKeys[p] else [];
        Cut(q, kept, l, i, added);
        var j := IndexOf(q, next.id);
        SameNode(t, p, j, |kept|);
        var receiver := q[j].client;
        next := if j + 1 < |q| then At(q[j + 1].id) else Null;
        count := count - 1;
        QueueClient(t, p, j);
        TurnsNext(s, cs, i, turn, w);
        kept, added := TurnQueue(t, p, kept, l, i, added, n, w);
        TakeTurn(receiver, p.key, n, w);
        n := n + 1;
      }
      assert cs[..|l|] == cs;
    }

    /**
     handleClientsBlockedOnKeys. Serving a client may make further keys ready;
     the loop ends because each round serves a client for good, deletes an
     expired key, or uses up a ready one.
     */
    method HandleClientsBlockedOnKeys(w: World)
      requires Inv(View()) && WorldOk(w) && taken == []
      modifies this
      ensures Inv(View()) && taken == []
      ensures readyKeys == [] && dbReadyKeys == {}
    {
      hide Inv, Turns;
      var n: nat := 0;
      while |readyKeys| != 0
        invariant Inv(View()) && taken == []
        decreases blockedClients, |keyspace|, |readyKeys|
      {
        BlockedCount(View());
        ghost var before, exist, keys := blockedClients, |keyspace|, |readyKeys|;
        var l := readyKeys;
        assert [] + l == l + [];
        readyKeys := [];
        taken := l;
        while |l| != 0
          invariant Inv(View()) && taken == l
          invariant blockedClients < before
                    || (blockedClients == before
                        && (|keyspace| < exist || (|keyspace| == exist && |l| + |readyKeys| <= keys)))
          invariant l == [] && blockedClients == before && |keyspace| == exist ==> |readyKeys| < keys
          decreases blockedClients, |keyspace|, |l|
        {
          BlockedCount(View());
          ghost var s := View();
          var p := l[0];
          dbReadyKeys := dbReadyKeys - {p};
          l := l[1..];
          taken := l;
          assert View() == Apply(s, TakeReady);
          TakeReadyInv(s);
          ghost var cs := Waiters(View(), p);
          TurnsProgress(View(), cs, n, w);
          var k := if p in blockingKeys then |blockingKeys[p]| else 0;
          HandleClientsBlockedOnKey(p, w, n);
          n := n + k;
          BlockedCount(View());
        }
      }
      NoReady(View());
    }
  }

  datatype Pointer = Null | At(id: nat)

  /** The position of a node, given its address. */
  function IndexOf(q: seq<Node>, id: nat): (i: nat)
    requires exists j :: 0 <= j < |q| && q[j].id == id
    ensures i < |q| && q[i].id == id
    decreases |q|
  {
    if q[0].id == id then 0
    else
      var j :| 0 <= j < |q| && q[j].id == id;
      assert q[1..][j - 1].id == id;
      1 + IndexOf(q[1..], id)
  }

  /** Leaving the served key first and the others with unblockClient is leaving them all. */
  lemma ServedKey(s: State, c: ClientId, k: Key)
    requires Inv(s) && c in s.clients && k in s.clients[c].keys
    ensures Releasable(s, c, k)
    ensures var t := Forget(Release(s, c, k), c, k);
            && Inv(t) && c in t.clients && t.clients[c].blocked && t.clients[c].btype in t.byType
            && t.clients[c].btype == s.clients[c].btype && t.byType == s.byType
            && Unblock(t, c, false) == Unblock(s, c, false)
    ensures s.byType.Keys >= {OnList, OnZset, OnStream}
  {
    hide Mirrored, NokeyOk, CountersOk, ReadyOk, UnblockedOk, Parted, Releasable, Release, Unmark;
    PartedNothing(s, c);
    ReleaseParts(s, c, {}, k);
    assert {} + {k} == {k};
    PartedFrame(s, c, {k});
    var t := Forget(Release(s, c, k), c, k);
    assert t == Leave(s, c, {k});
    LeaveInv(s, c, {k});
    WaitingBlocked(s, c, k);
    LeaveTwice(s, c, {k}, t.clients[c].keys.Keys);
    assert {k} + (s.clients[c].keys - {k}).Keys == s.clients[c].keys.Keys;
    TypeCounted(s, OnList);
    TypeCounted(s, OnZset);
    TypeCounted(s, OnStream);
    TypeCounted(s, s.clients[c].btype);
  }

  lemma WaitingBlocked(s: State, c: ClientId, k: Key)
    requires Mirrored(s) && c in s.clients && k in s.clients[c].keys
    ensures s.clients[c].blocked && OnKeys(s.clients[c].btype)
  {
    assert ClientOk(s, c);
  }

  lemma LeaveNothing(s: State, c: ClientId)
    requires Mirrored(s) && NokeyOk(s) && c in s.clients && s.clients[c].keys == map[]
    ensures Leave(s, c, s.clients[c].keys.Keys) == s
  {
    hide Mirrored, NokeyOk, Parted;
    PartedNothing(s, c);
    assert s.clients[c].keys.Keys == {};
    assert s.clients[c].keys - {} == map[];
  }

  lemma LeaveFrame(s: State, c: ClientId, r: set<Key>)
    requires c in s.clients
    ensures var t := Leave(s, c, r);
            t == s.(clients := t.clients, waiting := t.waiting, nokey := t.nokey)
  {
  }

  // ----- how the queue of a key changes -----

  lemma QueueNotEmpty(s: State, p: Slot)
    requires Inv(s) && p in s.waiting
    ensures s.waiting[p] != []
  {
    NotEmpty(s, p);
  }

  lemma BlockedCount(s: State)
    requires Inv(s)
    ensures s.blocked >= 0
  {
  }

  lemma NoReady(s: State)
    requires Inv(s) && s.ready == []
    ensures s.dbReady == {}
  {
  }

  lemma SameNode(s: State, p: Slot, i: nat, j: nat)
    requires Inv(s) && i < |Queue(s, p)| && j < |Queue(s, p)| && Queue(s, p)[i].id == Queue(s, p)[j].id
    ensures i == j
  {
    QueueDistinct(s, p, i, j);
  }

  lemma QueueClient(s: State, p: Slot, i: nat)
    requires Inv(s) && i < |Queue(s, p)|
    ensures var c := Queue(s, p)[i].client;
            && c in s.clients && p.key in s.clients[c].keys && s.clients[c].blocked
            && s.clients[c].btype in s.byType
  {
    QueueNode(s, p, i);
    var c := Queue(s, p)[i].client;
    WaitingBlocked(s, c, p.key);
    BlockedType(s, c);
  }

  lemma WaitingClient(s: State, c: ClientId, k: Key)
    requires Inv(s) && c in s.clients && k in s.clients[c].keys
    ensures s.clients[c].blocked && s.clients[c].btype in s.byType
  {
    WaitingBlocked(s, c, k);
    BlockedType(s, c);
  }

  /** A turn keeps those still to come in their places, and new arrivals behind them. */
  lemma TurnQueue(s: State, p: Slot, kept: seq<Node>, l: seq<Node>, i: nat, added: seq<Node>, n: nat, w: World)
    returns (kept2: seq<Node>, added2: seq<Node>)
    requires Inv(s) && i < |l| && Layout(Queue(s, p), kept, l, i, added)
    ensures Layout(Queue(Turn(s, l[i].client, n, w), p), kept2, l, i + 1, added2)
    ensures i + 1 == |l| && added != [] ==> added2 != [] && added2[0] == added[0]
  {
    hide Inv, Serve, Turn, Layout;
    var q := Queue(s, p);
    var c := l[i].client;
    Cut(q, kept, l, i, added);
    QueueClient(s, p, |kept|);
    TurnIs(s, c, n, w);
    if Eligible(s.clients[c], w.lookup(n)) {
      ServeQueue(s, p, |kept|, w.outcome(n));
      var r := Queue(Serve(s, c, w.outcome(n)), p);
      kept2, added2 := kept, r[|kept| + |l| - i - 1..];
      Rejoin(q, r, kept, l, i, added2);
    } else {
      kept2, added2 := kept + [l[i]], added;
      LayoutSkip(q, kept, l, i, added);
    }
  }

  lemma LayoutSkip(q: seq<Node>, kept: seq<Node>, l: seq<Node>, i: nat, added: seq<Node>)
    requires i < |l| && Layout(q, kept, l, i, added)
    ensures Layout(q, kept + [l[i]], l, i + 1, added)
  {
    assert l[i..] == [l[i]] + l[i + 1..];
  }

  /** Clients passed over, clients still to come, clients that joined meanwhile. */
  predicate Layout(q: seq<Node>, kept: seq<Node>, l: seq<Node>, i: int, added: seq<Node>) {
    0 <= i <= |l| && q == kept + l[i..] + added
  }

  lemma LayoutStart(l: seq<Node>)
    ensures Layout(l, [], l, 0, [])
  {
  }

  lemma WaitersAre(s: State, p: Slot)
    ensures |Waiters(s, p)| == |Queue(s, p)|
    ensures forall i :: 0 <= i < |Queue(s, p)| ==> Waiters(s, p)[i] == Queue(s, p)[i].client
  {
  }

  lemma Cut(q: seq<Node>, kept: seq<Node>, l: seq<Node>, i: nat, added: seq<Node>)
    requires i < |l| && Layout(q, kept, l, i, added)
    ensures |kept| < |q| && q[|kept|] == l[i] && q[..|kept|] == kept && q[|kept| + 1..] == l[i + 1..] + added
    ensures i + 1 < |l| ==> |kept| + 1 < |q| && q[|kept| + 1] == l[i + 1]
    ensures i + 1 == |l| && |kept| + 1 < |q| ==> added != [] && q[|kept| + 1] == added[0]
  {
  }

  lemma Rejoin(q: seq<Node>, r: seq<Node>, kept: seq<Node>, l: seq<Node>, i: nat, added: seq<Node>)
    requires i < |l| && |kept| < |q| && q[..|kept|] == kept
    requires l[i + 1..] <= q[|kept| + 1..]
    requires q[..|kept|] + q[|kept| + 1..] <= r
    requires added == r[|kept| + |l| - i - 1..]
    ensures Layout(r, kept, l, i + 1, added)
    ensures i + 1 == |l| && |q| > |kept| + 1 ==> added != [] && added[0] == q[|kept| + 1]
  {
    var m := kept + l[i + 1..];
    assert m <= r;
    assert r == m + r[|m|..];
  }

  /** A client leaves every queue it stands in; the others keep their order. */
  lemma UnblockQueue(s: State, c: ClientId, queue: bool, p: Slot)
    requires Mirrored(s) && c in s.clients && s.clients[c].btype in s.byType
    ensures Queue(Unblock(s, c, queue), p) == Without(Queue(s, p), c)
  {
    hide Mirrored, Without, Parted;
    var r := s.clients[c].keys.Keys;
    LeaveQueue(s, c, r, p);
    if !(p.db == s.clients[c].db && p.key in r) {
      forall i | 0 <= i < |Queue(s, p)| ensures Queue(s, p)[i].client != c {
        QueueNode(s, p, i);
      }
      WithoutAbsent(Queue(s, p), c);
    }
  }

  lemma {:induction false} WithoutAt(l: seq<Node>, i: nat, c: ClientId)
    requires i < |l| && forall j :: 0 <= j < |l| ==> (l[j].client == c <==> j == i)
    ensures Without(l, c) == l[..i] + l[i + 1..]
    decreases |l|
  {
    if i == 0 {
      assert forall j :: 0 <= j < |l[1..]| ==> l[1..][j] == l[j + 1];
      WithoutAbsent(l[1..], c);
    } else {
      assert l[0].client != c;
      WithoutAt(l[1..], i - 1, c);
      assert l[1..][..i - 1] == l[1..i];
      assert [l[0]] + l[1..i] == l[..i];
    }
  }

  /** Blocking puts the client at the end of the queue of each key it did not wait for. */
  lemma {:induction false} AddKeysQueue(s: State, c: ClientId, ks: seq<Key>, nokey: bool, p: Slot)
    requires c in s.clients
    ensures var t := AddKeys(s, c, ks, nokey);
            var cl := s.clients[c];
            && t.clients[c].db == cl.db
            && (forall k :: k in t.clients[c].keys <==> k in cl.keys || k in ks)
            && Queue(s, p) <= Queue(t, p)
            && Waiters(t, p)
               == Waiters(s, p) + if p.db == cl.db && p.key in ks && p.key !in cl.keys then [c] else []
    decreases |ks|
  {
    if ks != [] {
      var i := |ks| - 1;
      AddKeysQueue(s, c, ks[..i], nokey, p);
      assert forall k :: k in ks <==> k in ks[..i] || k == ks[i];
      AddKeyQueueEnd(AddKeys(s, c, ks[..i], nokey), c, ks[i], nokey, p);
    }
  }

  lemma AddKeyQueueEnd(s: State, c: ClientId, k: Key, nokey: bool, p: Slot)
    requires c in s.clients
    ensures var t := AddKey(s, c, k, nokey);
            var cl := s.clients[c];
            && c in t.clients && t.clients[c].db == cl.db
            && (forall x :: x in t.clients[c].keys <==> x in cl.keys || x == k)
            && Queue(s, p) <= Queue(t, p)
            && Waiters(t, p) == Waiters(s, p) + if p == Slot(cl.db, k) && k !in cl.keys then [c] else []
  {
  }

  lemma BlockForKeysWaiters(s: State, c: ClientId, bt: BType, ks: seq<Key>, nokey: bool, p: Slot)
    requires c in s.clients && bt in s.byType && s.clients[c].keys == map[]
    ensures var t := BlockForKeys(s, c, bt, ks, nokey);
            && Queue(s, p) <= Queue(t, p)
            && Waiters(t, p) == Waiters(s, p) + if p.db == s.clients[c].db && p.key in ks then [c] else []
  {
    hide AddKeys;
    AddKeysQueue(s, c, ks, nokey, p);
    AddKeysFrame(s, c, ks, nokey);
    var u := AddKeys(s, c, ks, nokey);
    assert Queue(BlockForKeys(s, c, bt, ks, nokey), p) == Queue(u, p);
  }

  /** Serving takes the client's node out; if the client blocks again it joins at the end. */
  lemma ServeQueue(s: State, p: Slot, i: nat, o: Outcome)
    requires Inv(s) && i < |Queue(s, p)|
    ensures var q := Queue(s, p);
            var c := q[i].client;
            && c in s.clients && s.clients[c].btype in s.byType
            && q[..i] + q[i + 1..] <= Queue(Serve(s, c, o), p)
  {
    hide NokeyOk, CountersOk, ReadyOk, UnblockedOk, Mirrored, Unblock, Reprocess, Without;
    var q := Queue(s, p);
    var c := q[i].client;
    QueueClient(s, p, i);
    forall j | 0 <= j < |q| ensures q[j].client == c <==> j == i {
      QueueNode(s, p, i);
      QueueNode(s, p, j);
      if q[j].client == c {
        SameNode(s, p, i, j);
      }
    }
    WithoutAt(q, i, c);
    UnblockQueue(s, c, false, p);
    UnblockFrame(s, c, false);
    ReprocessQueue(Unblock(s, c, false), c, o, p);
  }

  lemma ReprocessQueue(s: State, c: ClientId, o: Outcome, p: Slot)
    requires c in s.clients && s.clients[c].keys == map[]
    ensures Queue(s, p) <= Queue(Reprocess(s, c, o), p)
  {
    hide AddKeys;
    var t := ClearPending(s, c);
    match o
    case Done(sigs, _) => SignalsFrame(t, sigs);
    case Again(expired, bt, ks, nokey) =>
      ExpireFrame(t, expired);
      if bt in t.byType {
        BlockForKeysWaiters(ExpireKeys(t, expired), c, bt, ks, nokey, p);
      }
  }

  lemma TurnsNone(s: State, n: nat, w: World)
    ensures Turns(s, [], n, w) == s
  {
  }

  lemma TurnsNext(s: State, cs: seq<ClientId>, i: nat, n: nat, w: World)
    requires i < |cs|
    ensures Turns(s, cs[..i + 1], n, w) == Turn(Turns(s, cs[..i], n, w), cs[i], n + i, w)
  {
    hide Turn;
    assert cs[..i + 1][..i] == cs[..i];
  }

  lemma TurnIs(s: State, c: ClientId, n: nat, w: World)
    requires c in s.clients && s.clients[c].btype in s.byType
    ensures Turn(s, c, n, w) == if Eligible(s.clients[c], w.lookup(n)) then Serve(s, c, w.outcome(n)) else s
  {
  }

  lemma TurnInv(s: State, c: ClientId, n: nat, w: World)
    requires Inv(s) && WorldOk(w) && c in s.clients && s.clients[c].blocked
    ensures Inv(Turn(s, c, n, w))
  {
    hide Inv, Serve;
    if s.clients[c].btype in s.byType && Eligible(s.clients[c], w.lookup(n)) {
      ServeInv(s, c, w.outcome(n));
    }
  }

  // ----- why the loop over ready keys ends -----

  /** Fewer clients blocked, or else fewer keys, or else no key made ready. */
  ghost predicate Progress(s: State, t: State) {
    t.blocked < s.blocked
    || (t.blocked == s.blocked
        && (|t.keyspace| < |s.keyspace| || (|t.keyspace| == |s.keyspace| && t.ready == s.ready)))
  }

  lemma {:induction false} TurnsProgress(s: State, cs: seq<ClientId>, n: nat, w: World)
    ensures Progress(s, Turns(s, cs, n, w))
    decreases |cs|
  {
    hide Turn;
    if cs != [] {
      var i := |cs| - 1;
      TurnsProgress(s, cs[..i], n, w);
      TurnProgress(Turns(s, cs[..i], n, w), cs[i], n + i, w);
    }
  }

  /** A turn serves a client for good, deletes a key, or leaves the ready keys alone. */
  lemma TurnProgress(s: State, c: ClientId, n: nat, w: World)
    ensures Progress(s, Turn(s, c, n, w))
  {
    hide Unblock, Reprocess;
    if c in s.clients && s.clients[c].btype in s.byType {
      UnblockFrame(s, c, false);
      ReprocessProgress(Unblock(s, c, false), c, w.outcome(n));
    }
  }

  lemma ReprocessProgress(s: State, c: ClientId, o: Outcome)
    requires c in s.clients
    ensures var t := Reprocess(s, c, o);
            t.blocked == s.blocked
            || (t.blocked == s.blocked + 1
                && (|t.keyspace| < |s.keyspace| || (t.keyspace == s.keyspace && t.ready == s.ready)))
  {
    hide AddKeys;
    var t := ClearPending(s, c);
    match o
    case Done(sigs, _) => SignalsFrame(t, sigs);
    case Again(expired, bt, ks, nokey) =>
      ExpireFrame(t, expired);
      var u := ExpireKeys(t, expired);
      if u.keyspace != t.keyspace {
        Smaller(u.keyspace, t.keyspace);
      }
      AddKeysFrame(u, c, ks, nokey);
  }

  lemma Smaller(a: set<Slot>, b: set<Slot>)
    requires a < b
    ensures |a| < |b|
  {
    var x :| x in b && x !in a;
    assert b == (b - a) + a;
  }
}
