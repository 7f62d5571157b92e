/**
 Whole runs: clients connect, block, are signalled, served, expire and leave
 in any order.
 */
module BlockedRuns {
  import opened Blocked
  import opened BlockedInv

  datatype ObjType = ObjString | ObjList | ObjSet | ObjZset | ObjHash | ObjStream

  /** getBlockedTypeByType */
  function BlockedTypeOf(ty: ObjType): BType {
    match ty
    case ObjList => OnList
    case ObjZset => OnZset
    case ObjStream => OnStream
    case _ => NotBlocked
  }

  function CountOf(s: State, bt: BType): int {
    if bt in s.byType then s.byType[bt] else 0
  }

  /** signalKeyAsReadyLogic */
  function Signal(s: State, p: Slot, ty: ObjType, deleted: bool): State {
    var bt := BlockedTypeOf(ty);
    if bt == NotBlocked || CountOf(s, bt) == 0 then s
    else if (if deleted then p !in s.nokey else p !in s.waiting) then s
    else if p in s.dbReady then s
    else s.(dbReady := s.dbReady + {p}, ready := s.ready + [p])
  }

  datatype Sig = Sig(p: Slot, ty: ObjType, deleted: bool)

  function Signals(s: State, sigs: seq<Sig>): State
    decreases |sigs|
  {
    if sigs == [] then s
    else
      var i := |sigs| - 1;
      Signal(Signals(s, sigs[..i]), sigs[i].p, sigs[i].ty, sigs[i].deleted)
  }

  /** A key met after its time is deleted, and its deletion signalled. */
  function ExpireKey(s: State, e: Sig): State {
    if e.p in s.keyspace then Signal(s.(keyspace := s.keyspace - {e.p}), e.p, e.ty, true) else s
  }

  function ExpireKeys(s: State, es: seq<Sig>): State
    decreases |es|
  {
    if es == [] then s
    else
      var i := |es| - 1;
      ExpireKey(ExpireKeys(s, es[..i]), es[i])
  }

  /**
   What running the blocked command again comes to. A command that completes
   may signal any keys and leave any keys behind; one that blocks again creates
   none, and only deletes those it finds expired.
   */
  datatype Outcome =
    | Done(sigs: seq<Sig>, left: set<Slot>)
    | Again(expired: seq<Sig>, bt: BType, keys: seq<Key>, nokey: bool)

  predicate OutcomeOk(o: Outcome) {
    o.Again? ==> OnKeys(o.bt)
  }

  function ClearPending(s: State, c: ClientId): State
    requires c in s.clients
  {
    SetClient(s, c, s.clients[c].(pending := false))
  }

  /** The second half of unblockClientOnKey: the command is run again. */
  function Reprocess(s: State, c: ClientId, o: Outcome): State
    requires c in s.clients
  {
    var t := ClearPending(s, c);
    match o
    case Done(sigs, left) =>
      SignalsFrame(t, sigs);
      Requeue(Signals(t, sigs).(keyspace := left), c)
    case Again(expired, bt, ks, nokey) =>
      ExpireFrame(t, expired);
      var u := ExpireKeys(t, expired);
      if bt in u.byType then BlockForKeys(u, c, bt, ks, nokey) else u
  }

  /** unblockClientOnKey, as a whole. */
  function Serve(s: State, c: ClientId, o: Outcome): State
    requires c in s.clients && s.clients[c].btype in s.byType
  {
    var t := Unblock(s, c, false);
    if t.clients[c].pending then Reprocess(t, c, o) else t
  }

  lemma {:induction false} SignalsFrame(s: State, sigs: seq<Sig>)
    ensures var t := Signals(s, sigs);
            t == s.(dbReady := t.dbReady, ready := t.ready)
    decreases |sigs|
  {
    if sigs != [] {
      SignalsFrame(s, sigs[..|sigs| - 1]);
    }
  }

  /** Expiry takes keys away; if it takes none, it makes none ready. */
  lemma {:induction false} ExpireFrame(s: State, es: seq<Sig>)
    ensures var t := ExpireKeys(s, es);
            && t == s.(dbReady := t.dbReady, ready := t.ready, keyspace := t.keyspace)
            && t.keyspace <= s.keyspace
            && (t.keyspace == s.keyspace ==> t.ready == s.ready)
    decreases |es|
  {
    if es != [] {
      ExpireFrame(s, es[..|es| - 1]);
    }
  }

  // ----- each operation keeps the invariant -----

  lemma UnmarkInv(s: State, c: ClientId, queue: bool)
    requires Inv(s) && c in s.clients && s.clients[c].blocked && s.clients[c].keys == map[]
    ensures s.clients[c].btype in s.byType && Inv(Unmark(s, c, queue))
  {
    hide Mirrored, NokeyOk, CountersOk, ReadyOk, UnblockedOk;
    FreeOfKeys(s, c);
    TypeCounted(s, s.clients[c].btype);
    var bt := s.clients[c].btype;
    var cl := s.clients[c].(blocked := false, btype := NotBlocked, nokey := false);
    UnblockCounts(s, c, cl);
    var t := SetClient(s, c, cl).(blocked := s.blocked - 1, byType := s.byType[bt := s.byType[bt] - 1]);
    SameLists(s, t);
    SeatsInv(s, t);
    RequeueInv(t, c);
  }

  lemma RequeueInv(s: State, c: ClientId)
    requires Inv(s) && c in s.clients
    ensures Inv(Requeue(s, c))
  {
    hide Mirrored, NokeyOk, CountersOk;
    if !s.clients[c].queued {
      RequeueLists(s, c);
      SameCounters(s, Requeue(s, c));
      SeatsInv(s, Requeue(s, c));
    }
  }

  lemma RequeueLists(s: State, c: ClientId)
    requires ReadyOk(s) && UnblockedOk(s) && c in s.clients && !s.clients[c].queued
    ensures ReadyOk(Requeue(s, c)) && UnblockedOk(Requeue(s, c))
  {
    var t := Requeue(s, c);
    assert t.unblocked == s.unblocked + [c];
    forall d | d in t.clients ensures t.clients[d].queued <==> d in t.unblocked {
      assert d == c ==> t.unblocked[|s.unblocked|] == c;
    }
  }

  lemma ClearPendingInv(s: State, c: ClientId)
    requires Inv(s) && c in s.clients
    ensures Inv(ClearPending(s, c))
  {
    hide Mirrored, NokeyOk, CountersOk, ReadyOk, UnblockedOk;
    SameLists(s, ClearPending(s, c));
    SameCounters(s, ClearPending(s, c));
    SeatsInv(s, ClearPending(s, c));
  }

  /** Unblocking, for whatever reason, takes the client out of every queue. */
  lemma UnblockInv(s: State, c: ClientId, queue: bool)
    requires Inv(s) && c in s.clients && s.clients[c].blocked
    ensures s.clients[c].btype in s.byType && Inv(Unblock(s, c, queue))
  {
    hide Inv, Unmark, Parted;
    BlockedType(s, c);
    LeaveInv(s, c, s.clients[c].keys.Keys);
    LeaveClients(s, c, s.clients[c].keys.Keys);
    UnmarkInv(Leave(s, c, s.clients[c].keys.Keys), c, queue);
  }

  lemma BlockedType(s: State, c: ClientId)
    requires Inv(s) && c in s.clients && s.clients[c].blocked
    ensures s.clients[c].btype in s.byType && s.clients[c].btype != NotBlocked
  {
    assert ClientOk(s, c);
  }

  /** Neither indexes nor counters look at the ready keys or at the keyspace. */
  lemma ReadyInv(s: State, t: State)
    requires Inv(s) && t == s.(dbReady := t.dbReady, ready := t.ready, keyspace := t.keyspace) && ReadyOk(t)
    ensures Inv(t)
  {
    hide Mirrored, NokeyOk, ReadyOk;
    SameCounters(s, t);
    SeatsInv(s, t);
  }

  lemma SignalInv(s: State, p: Slot, ty: ObjType, deleted: bool)
    requires Inv(s)
    ensures Inv(Signal(s, p, ty, deleted))
  {
    hide Mirrored, NokeyOk, CountersOk, UnblockedOk;
    var t := Signal(s, p, ty, deleted);
    if t != s {
      assert t.ready[|s.ready|] == p;
      assert forall q :: q in t.ready <==> q in s.ready || q == p;
    }
    assert ReadyOk(t);
    ReadyInv(s, t);
  }

  lemma {:induction false} SignalsInv(s: State, sigs: seq<Sig>)
    requires Inv(s)
    ensures Inv(Signals(s, sigs))
    decreases |sigs|
  {
    hide Inv, Signal;
    if sigs != [] {
      var i := |sigs| - 1;
      SignalsInv(s, sigs[..i]);
      SignalInv(Signals(s, sigs[..i]), sigs[i].p, sigs[i].ty, sigs[i].deleted);
    }
  }

  lemma KeyspaceInv(s: State, keys: set<Slot>)
    requires Inv(s)
    ensures Inv(s.(keyspace := keys))
  {
    hide Mirrored, NokeyOk, CountersOk, UnblockedOk;
    ReadyInv(s, s.(keyspace := keys));
  }

  lemma {:induction false} ExpireInv(s: State, es: seq<Sig>)
    requires Inv(s)
    ensures Inv(ExpireKeys(s, es))
    decreases |es|
  {
    hide Inv, Signal;
    if es != [] {
      var i := |es| - 1;
      ExpireInv(s, es[..i]);
      var t, p := ExpireKeys(s, es[..i]), es[i].p;
      if p in t.keyspace {
        KeyspaceInv(t, t.keyspace - {p});
        SignalInv(t.(keyspace := t.keyspace - {p}), p, es[i].ty, true);
      }
    }
  }

  lemma UnblockFrame(s: State, c: ClientId, queue: bool)
    requires c in s.clients && s.clients[c].btype in s.byType
    ensures var t := Unblock(s, c, queue);
            && t.clients.Keys == s.clients.Keys
            && t.clients[c] == Client(s.clients[c].db, false, NotBlocked, map[], false, s.clients[c].pending,
                                      s.clients[c].queued || queue)
            && t.byType.Keys == s.byType.Keys
            && t.blocked == s.blocked - 1 && t.dbReady == s.dbReady && t.ready == s.ready
            && t.keyspace == s.keyspace
            && forall d :: d in s.clients && d != c ==> t.clients[d] == s.clients[d]
  {
    hide Kept, CountWants;
    assert s.clients[c].keys - s.clients[c].keys.Keys == map[];
  }

  lemma ReprocessInv(s: State, c: ClientId, o: Outcome)
    requires Inv(s) && c in s.clients && !s.clients[c].blocked && OutcomeOk(o)
    ensures Inv(Reprocess(s, c, o))
  {
    hide Inv, BlockForKeys, Requeue;
    ClearPendingInv(s, c);
    var t := ClearPending(s, c);
    match o
    case Done(sigs, left) =>
      SignalsInv(t, sigs);
      SignalsFrame(t, sigs);
      KeyspaceInv(Signals(t, sigs), left);
      RequeueInv(Signals(t, sigs).(keyspace := left), c);
    case Again(expired, bt, ks, nokey) =>
      ExpireInv(t, expired);
      ExpireFrame(t, expired);
      BlockForKeysInv(ExpireKeys(t, expired), c, bt, ks, nokey);
  }

  lemma ServeInv(s: State, c: ClientId, o: Outcome)
    requires Inv(s) && c in s.clients && s.clients[c].blocked && OutcomeOk(o)
    ensures s.clients[c].btype in s.byType && Inv(Serve(s, c, o))
  {
    hide Inv, Unblock, Reprocess;
    UnblockInv(s, c, false);
    UnblockFrame(s, c, false);
    if s.clients[c].pending {
      ReprocessInv(Unblock(s, c, false), c, o);
    }
  }

  // ----- what the invariant means -----

  function Occurs(l: seq<ClientId>, c: ClientId): nat
    decreases |l|
  {
    if l == [] then 0 else (if l[0] == c then 1 else 0) + Occurs(l[1..], c)
  }

  lemma {:induction false} OccursOnce(l: seq<ClientId>, c: ClientId, j: nat)
    requires j < |l| && l[j] == c
    requires forall i :: 0 <= i < |l| && l[i] == c ==> i == j
    ensures Occurs(l, c) == 1
    decreases |l|
  {
    if j == 0 {
      OccursNot(l[1..], c);
    } else {
      OccursOnce(l[1..], c, j - 1);
    }
  }

  lemma {:induction false} OccursNot(l: seq<ClientId>, c: ClientId)
    requires forall i :: 0 <= i < |l| ==> l[i] != c
    ensures Occurs(l, c) == 0
    decreases |l|
  {
    if l != [] {
      OccursNot(l[1..], c);
    }
  }

  /** A client waits for a key exactly when it stands in the key's queue, and then once. */
  lemma IndexesAgree(s: State, c: ClientId, p: Slot)
    requires Inv(s) && c in s.clients
    ensures Occurs(Waiters(s, p), c) == if s.clients[c].db == p.db && p.key in s.clients[c].keys then 1 else 0
  {
    hide NokeyOk, CountersOk, ReadyOk, UnblockedOk, Occurs, ClientOk, QueueOk;
    var l := Queue(s, p);
    var cl := s.clients[c];
    forall i | 0 <= i < |l| ensures NodeOk(s.clients, p, l[i]) {
      QueueNode(s, p, i);
    }
    if cl.db == p.db && p.key in cl.keys {
      OwnNode(s, c, p.key);
      var j :| 0 <= j < |l| && l[j] == Node(cl.keys[p.key], c);
      forall i | 0 <= i < |l| && l[i].client == c ensures i == j {
        QueueDistinct(s, p, i, j);
      }
      OccursOnce(Waiters(s, p), c, j);
    } else {
      OccursNot(Waiters(s, p), c);
    }
  }

  lemma QueueNode(s: State, p: Slot, i: nat)
    requires Mirrored(s) && i < |Queue(s, p)|
    ensures NodeOk(s.clients, p, Queue(s, p)[i])
  {
    assert QueueOk(s, p, Queue(s, p));
  }

  lemma QueueDistinct(s: State, p: Slot, i: nat, j: nat)
    requires Mirrored(s) && i < |Queue(s, p)| && j < |Queue(s, p)| && Queue(s, p)[i].id == Queue(s, p)[j].id
    ensures i == j
  {
    assert QueueOk(s, p, Queue(s, p));
  }

  // ----- runs -----

  datatype Op =
    | Connect(c: ClientId, db: nat)
    | Select(c: ClientId, db: nat)
    | BlockKeys(c: ClientId, bt: BType, keys: seq<Key>, nokey: bool)
    | BlockElse(c: ClientId, bt: BType, pending: bool)
    | TimeOut(c: ClientId)
    | Keyspace(left: set<Slot>)
    | Announce(p: Slot, ty: ObjType, deleted: bool)
    | TakeReady
    | ServeClient(c: ClientId, o: Outcome)
    | TakeUnblocked
    | Disconnect(c: ClientId)

  predicate Enabled(s: State, op: Op) {
    match op
    case Connect(c, _) => c !in s.clients
    case Select(c, _) => c in s.clients && !s.clients[c].blocked
    case BlockKeys(c, bt, _, _) => c in s.clients && !s.clients[c].blocked && OnKeys(bt) && bt in s.byType
    case BlockElse(c, bt, _) =>
      c in s.clients && !s.clients[c].blocked && !OnKeys(bt) && bt != NotBlocked && bt in s.byType
    case Keyspace(_) => true
    case TimeOut(c) => c in s.clients && s.clients[c].blocked && s.clients[c].btype in s.byType
    case Announce(_, _, _) => true
    case TakeReady => s.ready != []
    case ServeClient(c, o) =>
      c in s.clients && OnKeys(s.clients[c].btype) && s.clients[c].btype in s.byType && OutcomeOk(o)
    case TakeUnblocked => s.unblocked != [] && s.unblocked[0] in s.clients
    case Disconnect(c) => c in s.clients && (s.clients[c].blocked ==> s.clients[c].btype in s.byType)
  }

  function Without1(l: seq<ClientId>, c: ClientId): seq<ClientId>
    decreases |l|
  {
    if l == [] then [] else if l[0] == c then l[1..] else [l[0]] + Without1(l[1..], c)
  }

  /** freeClient, as far as blocking goes. */
  function Remove(s: State, c: ClientId): State {
    s.(clients := s.clients - {c}, unblocked := Without1(s.unblocked, c))
  }

  function Apply(s: State, op: Op): State
    requires Enabled(s, op)
  {
    match op
    case Connect(c, db) => SetClient(s, c, Client(db, false, NotBlocked, map[], false, false, false))
    case Select(c, db) => SetClient(s, c, s.clients[c].(db := db))
    case BlockKeys(c, bt, ks, nokey) => BlockForKeys(s, c, bt, ks, nokey)
    case BlockElse(c, bt, pending) =>
      BlockClient(SetClient(s, c, s.clients[c].(nokey := false, pending := pending)), c, bt)
    case Keyspace(keys) => s.(keyspace := keys)
    case TimeOut(c) =>
      Unblock(ClearPending(s, c), c, true)
    case Announce(p, ty, deleted) => Signal(s, p, ty, deleted)
    case TakeReady => s.(ready := s.ready[1..], dbReady := s.dbReady - {s.ready[0]})
    case ServeClient(c, o) => Serve(s, c, o)
    case TakeUnblocked =>
      var c := s.unblocked[0];
      SetClient(s, c, s.clients[c].(queued := false)).(unblocked := s.unblocked[1..])
    case Disconnect(c) => Remove(if s.clients[c].blocked then Unblock(s, c, true) else s, c)
  }

  lemma ConnectInv(s: State, c: ClientId, cl: Client)
    requires Inv(s) && c !in s.clients
    requires cl == Client(cl.db, false, NotBlocked, map[], false, false, false)
    ensures Inv(SetClient(s, c, cl))
  {
    hide Mirrored, NokeyOk, CountersOk, ReadyOk;
    var t := SetClient(s, c, cl);
    ConnectCounts(s, c, cl);
    assert c !in s.unblocked;
    SameReady(s, t);
    SeatsInv(s, t);
  }

  lemma SameReady(s: State, t: State)
    requires ReadyOk(s) && t.dbReady == s.dbReady && t.ready == s.ready
    ensures ReadyOk(t)
  {
  }

  lemma ConnectCounts(s: State, c: ClientId, cl: Client)
    requires CountersOk(s) && c !in s.clients && !cl.blocked
    ensures CountersOk(SetClient(s, c, cl))
  {
    var t := SetClient(s, c, cl);
    assert BlockedSet(t.clients) == BlockedSet(s.clients);
    forall bt | bt != NotBlocked ensures |OfType(t.clients, bt)| == |OfType(s.clients, bt)| {
      assert OfType(t.clients, bt) == OfType(s.clients, bt);
    }
  }

  lemma SelectInv(s: State, c: ClientId, db: nat)
    requires Inv(s) && c in s.clients && !s.clients[c].blocked
    ensures Inv(SetClient(s, c, s.clients[c].(db := db)))
  {
    hide Mirrored, NokeyOk, CountersOk, ReadyOk, UnblockedOk;
    var t := SetClient(s, c, s.clients[c].(db := db));
    FreeOfKeys(s, c);
    SameCounters(s, t);
    SameLists(s, t);
    SeatsInv(s, t);
  }

  lemma TakeReadyInv(s: State)
    requires Inv(s) && s.ready != []
    ensures Inv(Apply(s, TakeReady))
  {
    hide Mirrored, NokeyOk, CountersOk, UnblockedOk;
    var t := Apply(s, TakeReady);
    assert forall p :: p in s.ready <==> p == s.ready[0] || p in t.ready;
    assert s.ready[0] !in t.ready;
    ReadyInv(s, t);
  }

  lemma TakeUnblockedInv(s: State)
    requires Inv(s) && s.unblocked != []
    ensures Enabled(s, TakeUnblocked) && Inv(Apply(s, TakeUnblocked))
  {
    hide Mirrored, NokeyOk, CountersOk, ReadyOk;
    assert s.unblocked[0] in s.clients;
    var t := Apply(s, TakeUnblocked);
    var c := s.unblocked[0];
    assert forall d :: d in s.unblocked <==> d == c || d in t.unblocked;
    assert c !in t.unblocked;
    SameCounters(s, t);
    SameReady(s, t);
    SeatsInv(s, t);
  }

  lemma {:induction false} Without1Is(l: seq<ClientId>, c: ClientId)
    requires Distinct(l)
    ensures forall d :: d in Without1(l, c) <==> d in l && d != c
    ensures Distinct(Without1(l, c))
    decreases |l|
  {
    if l != [] {
      assert forall d :: d in l <==> d == l[0] || d in l[1..];
      assert l[0] !in l[1..];
      if l[0] != c {
        Without1Is(l[1..], c);
        var m := Without1(l[1..], c);
        assert l[0] !in m;
        assert forall d :: d in [l[0]] + m <==> d == l[0] || d in m;
      }
    }
  }

  lemma RemoveInv(s: State, c: ClientId)
    requires Inv(s) && c in s.clients && !s.clients[c].blocked
    ensures Inv(Remove(s, c))
  {
    hide Mirrored, NokeyOk, CountersOk, ReadyOk, UnblockedOk, Without1;
    var t := Remove(s, c);
    FreeOfKeys(s, c);
    RemoveUnblocked(s, c);
    RemoveCounts(s, c);
    SameReady(s, t);
    SeatsInv(s, t);
  }

  lemma RemoveUnblocked(s: State, c: ClientId)
    requires UnblockedOk(s)
    ensures UnblockedOk(Remove(s, c))
  {
    hide Without1;
    var t := Remove(s, c);
    Without1Is(s.unblocked, c);
    forall i | 0 <= i < |t.unblocked| ensures t.unblocked[i] in t.clients {
      assert t.unblocked[i] in t.unblocked;
      assert t.unblocked[i] in s.unblocked;
    }
  }

  lemma RemoveCounts(s: State, c: ClientId)
    requires CountersOk(s) && c in s.clients && !s.clients[c].blocked
    ensures CountersOk(Remove(s, c))
  {
    var t := Remove(s, c);
    assert BlockedSet(t.clients) == BlockedSet(s.clients);
    forall bt | bt != NotBlocked ensures |OfType(t.clients, bt)| == |OfType(s.clients, bt)| {
      assert OfType(t.clients, bt) == OfType(s.clients, bt);
    }
  }

  lemma TimeOutInv(s: State, c: ClientId)
    requires Inv(s) && Enabled(s, TimeOut(c))
    ensures Inv(Apply(s, TimeOut(c)))
  {
    hide Inv, Unblock;
    ClearPendingInv(s, c);
    UnblockInv(ClearPending(s, c), c, true);
  }

  lemma DisconnectInv(s: State, c: ClientId)
    requires Inv(s) && Enabled(s, Disconnect(c))
    ensures Inv(Apply(s, Disconnect(c)))
  {
    hide Inv, Unblock, Remove;
    if s.clients[c].blocked {
      UnblockInv(s, c, true);
      UnblockFrame(s, c, true);
      RemoveInv(Unblock(s, c, true), c);
    } else {
      RemoveInv(s, c);
    }
  }

  lemma OpInv(s: State, op: Op)
    requires Inv(s) && Enabled(s, op)
    ensures Inv(Apply(s, op))
  {
    hide Inv, BlockForKeys, Serve, Signal, Unblock, Remove, BlockClient;
    match op
    case Connect(c, db) => ConnectInv(s, c, Client(db, false, NotBlocked, map[], false, false, false));
    case Select(c, db) => SelectInv(s, c, db);
    case BlockKeys(c, bt, ks, nokey) => BlockForKeysInv(s, c, bt, ks, nokey);
    case BlockElse(c, bt, pending) => MarkInv(s, c, bt, false, pending);
    case TimeOut(c) => TimeOutInv(s, c);
    case Keyspace(keys) => KeyspaceInv(s, keys);
    case Announce(p, ty, deleted) => SignalInv(s, p, ty, deleted);
    case TakeReady => TakeReadyInv(s);
    case ServeClient(c, o) =>
      KeyBlocked(s, c);
      ServeInv(s, c, o);
    case TakeUnblocked => TakeUnblockedInv(s);
    case Disconnect(c) => DisconnectInv(s, c);
  }

  lemma KeyBlocked(s: State, c: ClientId)
    requires Inv(s) && c in s.clients && OnKeys(s.clients[c].btype)
    ensures s.clients[c].blocked
  {
    assert ClientOk(s, c);
  }

  predicate Possible(s: State, ops: seq<Op>)
    decreases |ops|
  {
    ops == [] || (Enabled(s, ops[0]) && Possible(Apply(s, ops[0]), ops[1..]))
  }

  function Run(s: State, ops: seq<Op>): State
    requires Possible(s, ops)
    decreases |ops|
  {
    if ops == [] then s else Run(Apply(s, ops[0]), ops[1..])
  }

  const NO_TYPES: map<BType, int> :=
    map[OnList := 0, OnZset := 0, OnStream := 0, Wait := 0, WaitAof := 0, Postpone := 0, Shutdown := 0, LazyFree := 0]

  function Start(): State {
    State(map[], map[], map[], {}, [], 0, NO_TYPES, [], 0, {})
  }

  lemma StartInv()
    ensures Inv(Start())
  {
    assert BlockedSet(Start().clients) == {};
    forall bt | bt != NotBlocked ensures |OfType(Start().clients, bt)| == 0 {
      assert OfType(Start().clients, bt) == {};
    }
  }

  /** Indexes, counts and queues agree after every run. */
  lemma {:induction false} RunInv(s: State, ops: seq<Op>)
    requires Inv(s) && Possible(s, ops)
    ensures Inv(Run(s, ops))
    decreases |ops|
  {
    hide Inv, Apply, Enabled;
    if ops != [] {
      OpInv(s, ops[0]);
      RunInv(Apply(s, ops[0]), ops[1..]);
    }
  }

  /** What that says of any key, client and kind of blocking, in every reachable state. */
  lemma ReachableAgrees(ops: seq<Op>, p: Slot, c: ClientId, bt: BType)
    requires Possible(Start(), ops)
    ensures var s := Run(Start(), ops);
            && (c in s.clients ==>
                  Occurs(Waiters(s, p), c) == if s.clients[c].db == p.db && p.key in s.clients[c].keys then 1 else 0)
            && (p in s.waiting ==> s.waiting[p] != [])
            && (p in s.nokey <==> CountWants(s.clients, Queue(s, p)) > 0)
            && (p in s.nokey ==> s.nokey[p] == CountWants(s.clients, Queue(s, p)))
            && (bt != NotBlocked ==> bt in s.byType && s.byType[bt] == |OfType(s.clients, bt)|)
            && s.blocked == |BlockedSet(s.clients)|
  {
    hide Run, Possible, Mirrored, CountWants, Occurs, OfType, BlockedSet;
    StartInv();
    RunInv(Start(), ops);
    var s := Run(Start(), ops);
    if c in s.clients {
      IndexesAgree(s, c, p);
    }
    if p in s.waiting {
      NotEmpty(s, p);
    } else {
      NoWants(s.clients);
    }
  }
}
