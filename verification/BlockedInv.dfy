/**
 Every operation on blocked clients keeps the indexes, the counts and the
 queues in agreement, so they agree in every reachable state.
 */
module BlockedInv {
  import opened Blocked

  function Waiters(s: State, p: Slot): seq<ClientId> {
    Clients(Queue(s, p))
  }

  function Clients(l: seq<Node>): seq<ClientId> {
    seq(|l|, i requires 0 <= i < |l| => l[i].client)
  }

  // ----- blocking on keys -----

  /** The client's flags and the counters, as blockForKeys leaves them. */
  function Mark(s: State, c: ClientId, bt: BType, nokey: bool): State
    requires c in s.clients && bt in s.byType
  {
    BlockClient(SetClient(s, c, s.clients[c].(nokey := nokey, pending := true)), c, bt)
  }

  lemma SetTwice(m: map<ClientId, Client>, c: ClientId, x: Client, y: Client)
    ensures m[c := x][c := y] == m[c := y]
  {
  }

  function Marked(cl: Client, bt: BType, nokey: bool, pending: bool): Client {
    cl.(nokey := nokey, pending := pending, blocked := true, btype := bt)
  }

  lemma MarkIs(s: State, c: ClientId, bt: BType, nokey: bool, pending: bool)
    requires c in s.clients && bt in s.byType
    ensures BlockClient(SetClient(s, c, s.clients[c].(nokey := nokey, pending := pending)), c, bt)
         == SetClient(s, c, Marked(s.clients[c], bt, nokey, pending)).(
              blocked := s.blocked + 1, byType := s.byType[bt := s.byType[bt] + 1])
  {
    var cl := s.clients[c];
    SetTwice(s.clients, c, cl.(nokey := nokey, pending := pending), Marked(cl, bt, nokey, pending));
  }

  /** A key may be added before or after the flags are set. */
  lemma AddKeyCommutes(s: State, c: ClientId, bt: BType, k: Key, nokey: bool)
    requires c in s.clients && bt in s.byType
    ensures AddKey(Mark(s, c, bt, nokey), c, k, nokey) == Mark(AddKey(s, c, k, nokey), c, bt, nokey)
  {
    hide BlockClient;
    var cl := s.clients[c];
    MarkIs(s, c, bt, nokey, true);
    if k !in cl.keys {
      var t := AddKey(s, c, k, nokey);
      MarkIs(t, c, bt, nokey, true);
      var y := cl.(keys := cl.keys[k := s.nextId]);
      SetTwice(s.clients, c, Marked(cl, bt, nokey, true), Marked(y, bt, nokey, true));
      SetTwice(s.clients, c, y, Marked(y, bt, nokey, true));
    }
  }

  lemma {:induction false} AddKeysCommute(s: State, c: ClientId, bt: BType, ks: seq<Key>, nokey: bool)
    requires c in s.clients && bt in s.byType
    ensures bt in AddKeys(s, c, ks, nokey).byType
    ensures AddKeys(Mark(s, c, bt, nokey), c, ks, nokey) == Mark(AddKeys(s, c, ks, nokey), c, bt, nokey)
    decreases |ks|
  {
    hide AddKey, Mark;
    MarkKeeps(s, c, bt, nokey);
    AddKeysFrame(s, c, ks, nokey);
    if ks != [] {
      var i := |ks| - 1;
      AddKeysCommute(s, c, bt, ks[..i], nokey);
      AddKeyCommutes(AddKeys(s, c, ks[..i], nokey), c, bt, ks[i], nokey);
    }
  }

  lemma MarkKeeps(s: State, c: ClientId, bt: BType, nokey: bool)
    requires c in s.clients && bt in s.byType
    ensures c in Mark(s, c, bt, nokey).clients
  {
  }

  // ----- what the indexes do not look at -----

  /** The parts of a client the indexes depend on. */
  predicate SameSeat(x: Client, y: Client) {
    x.db == y.db && x.keys == y.keys && x.blocked == y.blocked && x.btype == y.btype && x.nokey == y.nokey
  }

  predicate Calm(x: Client) {
    x.keys == map[] && (x.blocked <==> x.btype != NotBlocked) && (x.nokey ==> OnKeys(x.btype))
  }

  /** Clients may come, go and change their flags as long as they wait for no key. */
  predicate SameSeats(s: State, t: State) {
    && (forall d :: d in t.clients ==>
          Calm(t.clients[d]) || (d in s.clients && SameSeat(s.clients[d], t.clients[d])))
    && (forall d :: d in s.clients && s.clients[d].keys != map[] ==>
          d in t.clients && SameSeat(s.clients[d], t.clients[d]))
    && t.waiting == s.waiting && t.nokey == s.nokey && t.nextId == s.nextId
  }

  lemma SeatNode(s: State, t: State, p: Slot, n: Node)
    requires SameSeats(s, t) && NodeOk(s.clients, p, n)
    ensures NodeOk(t.clients, p, n) && Wants(t.clients, n) == Wants(s.clients, n)
  {
    assert s.clients[n.client].keys != map[];
  }

  lemma SeatMirrored(s: State, t: State)
    requires Mirrored(s) && SameSeats(s, t)
    ensures Mirrored(t)
  {
    hide SameSeats, NodeOk;
    SeatWaiting(s, t);
    forall p | p in t.waiting ensures QueueOk(t, p, t.waiting[p]) {
      assert QueueOk(s, p, s.waiting[p]);
      forall i | 0 <= i < |s.waiting[p]| ensures NodeOk(t.clients, p, s.waiting[p][i]) {
        SeatNode(s, t, p, s.waiting[p][i]);
      }
    }
    forall d | d in t.clients ensures ClientOk(t, d) {
      SeatClient(s, t, d);
    }
  }

  lemma SeatWaiting(s: State, t: State)
    requires SameSeats(s, t)
    ensures t.waiting == s.waiting && t.nokey == s.nokey && t.nextId == s.nextId
  {
  }

  lemma SeatClient(s: State, t: State, d: ClientId)
    requires Mirrored(s) && SameSeats(s, t) && d in t.clients
    ensures ClientOk(t, d)
  {
    hide QueueOk;
    if !Calm(t.clients[d]) {
      assert ClientOk(s, d);
      assert forall p :: Queue(t, p) == Queue(s, p);
    }
  }

  lemma SeatNokey(s: State, t: State)
    requires Mirrored(s) && NokeyOk(s) && SameSeats(s, t)
    ensures NokeyOk(t)
  {
    hide CountWants, Wants, SameSeats, ClientOk, NodeOk;
    SeatWaiting(s, t);
    forall p ensures CountWants(t.clients, Queue(s, p)) == CountWants(s.clients, Queue(s, p)) {
      var l := Queue(s, p);
      if p in s.waiting {
        assert QueueOk(s, p, l);
      }
      forall i | 0 <= i < |l| ensures Wants(t.clients, l[i]) == Wants(s.clients, l[i]) {
        SeatNode(s, t, p, l[i]);
      }
      WantsSame(s.clients, t.clients, l);
    }
    forall p | p in t.nokey ensures t.nokey[p] > 0 && t.nokey[p] == CountWants(t.clients, Queue(t, p)) {
      assert Queue(t, p) == Queue(s, p);
    }
    forall p | p in t.waiting && p !in t.nokey ensures CountWants(t.clients, t.waiting[p]) == 0 {
      assert Queue(s, p) == t.waiting[p];
    }
  }

  lemma SeatsInv(s: State, t: State)
    requires Mirrored(s) && NokeyOk(s) && SameSeats(s, t)
    requires CountersOk(t) && ReadyOk(t) && UnblockedOk(t)
    ensures Inv(t)
  {
    hide Mirrored, NokeyOk, SameSeats;
    SeatMirrored(s, t);
    SeatNokey(s, t);
  }

  // ----- counters -----

  lemma BlockCounts(s: State, c: ClientId, bt: BType, cl: Client)
    requires CountersOk(s) && c in s.clients && !s.clients[c].blocked && bt != NotBlocked
    requires cl.blocked && cl.btype == bt
    ensures CountersOk(SetClient(s, c, cl).(blocked := s.blocked + 1, byType := s.byType[bt := s.byType[bt] + 1]))
  {
    hide OfType;
    var t := SetClient(s, c, cl);
    assert BlockedSet(t.clients) == BlockedSet(s.clients) + {c};
    forall b | b != NotBlocked
      ensures |OfType(t.clients, b)| == |OfType(s.clients, b)| + if b == bt then 1 else 0
    {
      OneMoreOf(s.clients, c, cl, b);
    }
  }

  lemma OneMoreOf(clients: map<ClientId, Client>, c: ClientId, cl: Client, b: BType)
    requires c in clients && !clients[c].blocked && cl.blocked
    ensures |OfType(clients[c := cl], b)| == |OfType(clients, b)| + if b == cl.btype then 1 else 0
  {
    if b == cl.btype {
      assert OfType(clients[c := cl], b) == OfType(clients, b) + {c};
    } else {
      assert OfType(clients[c := cl], b) == OfType(clients, b);
    }
  }

  lemma OneLessOf(clients: map<ClientId, Client>, c: ClientId, cl: Client, b: BType)
    requires c in clients && clients[c].blocked && !cl.blocked
    ensures |OfType(clients[c := cl], b)| == |OfType(clients, b)| - if b == clients[c].btype then 1 else 0
  {
    if b == clients[c].btype {
      assert OfType(clients[c := cl], b) == OfType(clients, b) - {c};
    } else {
      assert OfType(clients[c := cl], b) == OfType(clients, b);
    }
  }

  lemma UnblockCounts(s: State, c: ClientId, cl: Client)
    requires CountersOk(s) && c in s.clients && s.clients[c].blocked && s.clients[c].btype != NotBlocked
    requires !cl.blocked
    ensures var bt := s.clients[c].btype;
            CountersOk(SetClient(s, c, cl).(blocked := s.blocked - 1, byType := s.byType[bt := s.byType[bt] - 1]))
  {
    hide OfType;
    var t := SetClient(s, c, cl);
    var bt := s.clients[c].btype;
    assert BlockedSet(t.clients) == BlockedSet(s.clients) - {c};
    forall b | b != NotBlocked
      ensures |OfType(t.clients, b)| == |OfType(s.clients, b)| - if b == bt then 1 else 0
    {
      OneLessOf(s.clients, c, cl, b);
    }
  }

  /** blockClient for any kind of blocking; only blocking on keys may listen for removals. */
  lemma MarkInv(s: State, c: ClientId, bt: BType, nokey: bool, pending: bool)
    requires Inv(s) && c in s.clients && !s.clients[c].blocked && bt != NotBlocked
    requires nokey ==> OnKeys(bt)
    ensures var t := SetClient(s, c, s.clients[c].(nokey := nokey, pending := pending));
            bt in t.byType && Inv(BlockClient(t, c, bt))
  {
    hide Mirrored, NokeyOk, CountersOk, ReadyOk, UnblockedOk, BlockClient;
    FreeOfKeys(s, c);
    TypeCounted(s, bt);
    var cl := Marked(s.clients[c], bt, nokey, pending);
    BlockCounts(s, c, bt, cl);
    MarkIs(s, c, bt, nokey, pending);
    var t := SetClient(s, c, cl).(blocked := s.blocked + 1, byType := s.byType[bt := s.byType[bt] + 1]);
    SameLists(s, t);
    SeatsInv(s, t);
  }

  lemma FreeOfKeys(s: State, c: ClientId)
    requires Mirrored(s) && c in s.clients
    ensures s.clients[c].blocked <==> s.clients[c].btype != NotBlocked
    ensures !OnKeys(s.clients[c].btype) ==> s.clients[c].keys == map[] && !s.clients[c].nokey
  {
    assert ClientOk(s, c);
  }

  lemma TypeCounted(s: State, bt: BType)
    requires CountersOk(s) && bt != NotBlocked
    ensures bt in s.byType
  {
  }

  lemma {:induction false} AddKeysInv(s: State, c: ClientId, ks: seq<Key>)
    requires Inv(s) && c in s.clients && OnKeys(s.clients[c].btype)
    ensures Inv(AddKeys(s, c, ks, s.clients[c].nokey))
    decreases |ks|
  {
    hide Inv, AddKey;
    if ks != [] {
      var i := |ks| - 1;
      AddKeysInv(s, c, ks[..i]);
      AddKeysFrame(s, c, ks[..i], s.clients[c].nokey);
      AddKeyInv(AddKeys(s, c, ks[..i], s.clients[c].nokey), c, ks[i]);
    }
  }

  lemma BlockForKeysInv(s: State, c: ClientId, bt: BType, ks: seq<Key>, nokey: bool)
    requires Inv(s) && c in s.clients && !s.clients[c].blocked && OnKeys(bt)
    ensures bt in s.byType && Inv(BlockForKeys(s, c, bt, ks, nokey))
  {
    hide Inv, AddKeys;
    MarkInv(s, c, bt, nokey, true);
    var m := Mark(s, c, bt, nokey);
    AddKeysInv(m, c, ks);
    AddKeysCommute(s, c, bt, ks, nokey);
  }

  // ----- leaving keys -----

  /** The one node of a client in the queue of a key it waits for. */
  lemma OwnNode(s: State, c: ClientId, k: Key)
    requires Mirrored(s) && c in s.clients && k in s.clients[c].keys
    ensures var cl := s.clients[c];
            var p := Slot(cl.db, k);
            && p in s.waiting
            && Node(cl.keys[k], c) in s.waiting[p]
            && QueueOk(s, p, s.waiting[p])
            && Unlink(s.waiting[p], cl.keys[k]) == Without(s.waiting[p], c)
  {
    hide Unlink, Without;
    var cl := s.clients[c];
    var p := Slot(cl.db, k);
    assert ClientOk(s, c);
    assert Node(cl.keys[k], c) in Queue(s, p);
    var l := s.waiting[p];
    assert QueueOk(s, p, l);
    var j :| 0 <= j < |l| && l[j] == Node(cl.keys[k], c);
    forall i | 0 <= i < |l| ensures l[i].client == c <==> l[i].id == cl.keys[k] {
      assert NodeOk(s.clients, p, l[i]);
    }
    UnlinkIsWithout(l, cl.keys[k], c);
  }

  /** What leaving one more key does to the count of those who listen for its removal. */
  lemma OwnWants(s: State, c: ClientId, k: Key)
    requires Mirrored(s) && NokeyOk(s) && c in s.clients && k in s.clients[c].keys
    ensures var cl := s.clients[c];
            var p := Slot(cl.db, k);
            && p in s.waiting
            && CountWants(s.clients, s.waiting[p])
               == CountWants(s.clients, Without(s.waiting[p], c)) + (if cl.nokey then 1 else 0)
            && (p in s.nokey <==> CountWants(s.clients, s.waiting[p]) > 0)
  {
    hide Unlink, Without, CountWants, Mirrored, NodeOk;
    var cl := s.clients[c];
    OwnNode(s, c, k);
    WantsUnlink(s.clients, s.waiting[Slot(cl.db, k)], cl.keys[k], c);
  }

  lemma PartedOneMore(s: State, c: ClientId, r: set<Key>, k: Key)
    requires Mirrored(s) && c in s.clients && k in s.clients[c].keys && k !in r
    ensures var t, u := Parted(s, c, r), Parted(s, c, r + {k});
            var p := Slot(s.clients[c].db, k);
            && p in s.waiting && p in t.waiting && t.waiting[p] == s.waiting[p]
            && (p in t.nokey <==> CountWants(s.clients, s.waiting[p]) > 0)
            && (p in t.nokey ==> t.nokey[p] == CountWants(s.clients, s.waiting[p]))
            && var l := Without(s.waiting[p], c);
               var n := CountWants(s.clients, l);
               && u.waiting == (if l == [] then t.waiting - {p} else t.waiting[p := l])
               && u.nokey == if n == 0 then t.nokey - {p} else t.nokey[p := n]
  {
    hide Unlink, Without, CountWants, Mirrored, QueueOk;
    OwnNode(s, c, k);
    var p := Slot(s.clients[c].db, k);
    assert Kept(s, c, r, p) == s.waiting[p];
    assert Kept(s, c, r + {k}, p) == Without(s.waiting[p], c);
    assert forall q :: q != p ==> Kept(s, c, r + {k}, q) == Kept(s, c, r, q);
    NotEmpty(s, p);
    hide Kept, Parted;
    PartedDiffer(s, c, r, r + {k}, p);
    PartedDifferNokey(s, c, r, r + {k}, p);
    PartedAt(s, c, r, p);
  }

  lemma PartedAt(s: State, c: ClientId, r: set<Key>, p: Slot)
    requires c in s.clients && p in s.waiting && Kept(s, c, r, p) == s.waiting[p] != []
    ensures var t := Parted(s, c, r);
            && p in t.waiting && t.waiting[p] == s.waiting[p]
            && (p in t.nokey <==> CountWants(s.clients, s.waiting[p]) > 0)
            && (p in t.nokey ==> t.nokey[p] == CountWants(s.clients, s.waiting[p]))
  {
    hide Kept, CountWants;
  }

  /** Two ways of parting that differ at one slot only. */
  lemma PartedDiffer(s: State, c: ClientId, r: set<Key>, q: set<Key>, p: Slot)
    requires c in s.clients && p in s.waiting
    requires forall x :: x != p ==> Kept(s, c, q, x) == Kept(s, c, r, x)
    ensures var l := Kept(s, c, q, p);
            Parted(s, c, q).waiting
            == if l == [] then Parted(s, c, r).waiting - {p} else Parted(s, c, r).waiting[p := l]
  {
    hide Kept, CountWants;
  }

  lemma PartedDifferNokey(s: State, c: ClientId, r: set<Key>, q: set<Key>, p: Slot)
    requires c in s.clients && p in s.waiting
    requires forall x :: x != p ==> Kept(s, c, q, x) == Kept(s, c, r, x)
    ensures var n := CountWants(s.clients, Kept(s, c, q, p));
            Parted(s, c, q).nokey
            == if n == 0 then Parted(s, c, r).nokey - {p} else Parted(s, c, r).nokey[p := n]
  {
    hide Kept, CountWants;
  }

  /** releaseBlockedEntry never meets its own assertions, and takes the client off one more key. */
  lemma ReleaseParts(s: State, c: ClientId, r: set<Key>, k: Key)
    requires Mirrored(s) && NokeyOk(s) && c in s.clients && k in s.clients[c].keys && k !in r
    ensures Releasable(Parted(s, c, r), c, k)
    ensures Release(Parted(s, c, r), c, k) == Parted(s, c, r + {k})
  {
    hide Unlink, Without, CountWants, Mirrored, NokeyOk, QueueOk, Parted;
    OwnNode(s, c, k);
    OwnWants(s, c, k);
    NoWants(s.clients);
    PartedOneMore(s, c, r, k);
    PartedFrame(s, c, r);
    PartedFrame(s, c, r + {k});
  }

  lemma PartedFrame(s: State, c: ClientId, r: set<Key>)
    requires c in s.clients
    ensures Parted(s, c, r) == s.(waiting := Parted(s, c, r).waiting, nokey := Parted(s, c, r).nokey)
  {
  }

  lemma NotEmpty(s: State, p: Slot)
    requires Mirrored(s) && p in s.waiting
    ensures s.waiting[p] != []
  {
    assert QueueOk(s, p, s.waiting[p]);
  }

  lemma PartedNothing(s: State, c: ClientId)
    requires Mirrored(s) && NokeyOk(s) && c in s.clients
    ensures Parted(s, c, {}) == s
  {
    hide CountWants;
    forall p | p in s.waiting ensures s.waiting[p] != [] {
      NotEmpty(s, p);
    }
    NoWants(s.clients);
    forall p | p in s.nokey ensures p in s.waiting && CountWants(s.clients, Queue(s, p)) > 0 {
      assert Queue(s, p) != [];
    }
    var t := Parted(s, c, {});
    assert t.waiting == s.waiting;
    assert t.nokey == s.nokey;
  }

  lemma LeaveQueue(s: State, c: ClientId, r: set<Key>, p: Slot)
    requires c in s.clients
    ensures Queue(Leave(s, c, r), p) == Kept(s, c, r, p)
  {
  }

  lemma LeaveQueueOk(s: State, c: ClientId, r: set<Key>, p: Slot)
    requires Mirrored(s) && c in s.clients && r <= s.clients[c].keys.Keys
    requires p in Leave(s, c, r).waiting
    ensures QueueOk(Leave(s, c, r), p, Leave(s, c, r).waiting[p])
  {
    hide Without, Parted;
    var t := Leave(s, c, r);
    var l := Queue(s, p);
    LeaveQueue(s, c, r, p);
    LeaveWaiting(s, c, r, p);
    assert QueueOk(s, p, l);
    if p.db == s.clients[c].db && p.key in r {
      WithoutDistinct(l, c);
      var m := Without(l, c);
      forall i | 0 <= i < |m| ensures NodeOk(t.clients, p, m[i]) && m[i].id < t.nextId {
        WithoutKeeps(l, c, m[i]);
        StillOk(s, c, r, p, m[i]);
      }
    } else {
      forall i | 0 <= i < |l| ensures NodeOk(t.clients, p, l[i]) {
        StillOk(s, c, r, p, l[i]);
      }
    }
  }

  lemma LeaveWaiting(s: State, c: ClientId, r: set<Key>, p: Slot)
    requires c in s.clients && p in Leave(s, c, r).waiting
    ensures p in s.waiting && Leave(s, c, r).waiting[p] != []
    ensures Leave(s, c, r).nextId == s.nextId
  {
  }

  lemma StillOk(s: State, c: ClientId, r: set<Key>, p: Slot, n: Node)
    requires c in s.clients && NodeOk(s.clients, p, n)
    requires n.client != c || p.key !in r
    ensures NodeOk(Leave(s, c, r).clients, p, n)
  {
    hide Parted;
    LeaveClients(s, c, r);
  }

  lemma LeaveClients(s: State, c: ClientId, r: set<Key>)
    requires c in s.clients
    ensures Leave(s, c, r).clients == s.clients[c := s.clients[c].(keys := s.clients[c].keys - r)]
  {
  }

  lemma LeaveClientOk(s: State, c: ClientId, r: set<Key>, d: ClientId)
    requires Mirrored(s) && c in s.clients && d in s.clients
    ensures ClientOk(Leave(s, c, r), d)
  {
    hide Without, QueueOk;
    var t := Leave(s, c, r);
    assert ClientOk(s, d);
    forall k | k in t.clients[d].keys
      ensures Node(t.clients[d].keys[k], d) in Queue(t, Slot(t.clients[d].db, k))
    {
      var p := Slot(t.clients[d].db, k);
      LeaveQueue(s, c, r, p);
      WithoutKeeps(Queue(s, p), c, Node(t.clients[d].keys[k], d));
    }
  }

  lemma LeaveNokey(s: State, c: ClientId, r: set<Key>)
    requires Mirrored(s) && NokeyOk(s) && c in s.clients && r <= s.clients[c].keys.Keys
    ensures NokeyOk(Leave(s, c, r))
  {
    hide Mirrored, CountWants, Without;
    var t := Leave(s, c, r);
    NoWants(s.clients);
    forall p ensures CountWants(t.clients, Queue(t, p)) == CountWants(s.clients, Kept(s, c, r, p)) {
      LeaveQueue(s, c, r, p);
      WantsSame(s.clients, t.clients, Kept(s, c, r, p));
    }
    forall p | p in t.waiting && p !in t.nokey ensures CountWants(t.clients, t.waiting[p]) == 0 {
      assert CountWants(t.clients, Queue(t, p)) == CountWants(s.clients, Kept(s, c, r, p));
    }
  }

  lemma LeaveInv(s: State, c: ClientId, r: set<Key>)
    requires Inv(s) && c in s.clients && r <= s.clients[c].keys.Keys
    ensures Inv(Leave(s, c, r))
  {
    hide QueueOk, ClientOk, NokeyOk, CountersOk, ReadyOk, UnblockedOk;
    var t := Leave(s, c, r);
    LeaveNokey(s, c, r);
    SameCounters(s, t);
    SameLists(s, t);
    forall p | p in t.waiting ensures QueueOk(t, p, t.waiting[p]) {
      LeaveQueueOk(s, c, r, p);
    }
    forall d | d in t.clients ensures ClientOk(t, d) {
      LeaveClientOk(s, c, r, d);
    }
  }

  lemma WithoutTwice(l: seq<Node>, c: ClientId)
    ensures Without(Without(l, c), c) == Without(l, c)
  {
    hide Without;
    var m := Without(l, c);
    forall i | 0 <= i < |m| ensures m[i].client != c {
      WithoutKeeps(l, c, m[i]);
    }
    WithoutAbsent(m, c);
  }

  /** Leaving in two goes is leaving at once. */
  lemma LeaveTwice(s: State, c: ClientId, a: set<Key>, b: set<Key>)
    requires Mirrored(s) && NokeyOk(s) && c in s.clients && a <= s.clients[c].keys.Keys
    ensures Leave(Leave(s, c, a), c, b) == Leave(s, c, a + b)
  {
    hide Mirrored, NokeyOk, CountWants, Without;
    var t := Leave(s, c, a);
    NoWants(s.clients);
    forall p
      ensures Kept(t, c, b, p) == Kept(s, c, a + b, p)
      ensures CountWants(t.clients, Kept(t, c, b, p)) == CountWants(s.clients, Kept(s, c, a + b, p))
    {
      LeaveQueue(s, c, a, p);
      WithoutTwice(Queue(s, p), c);
      WantsSame(s.clients, t.clients, Kept(t, c, b, p));
    }
    LeaveTwiceNokey(s, c, a, b);
    LeaveTwiceWaiting(s, c, a, b);
    var u, v := Leave(t, c, b), Leave(s, c, a + b);
    assert s.clients[c].keys - a - b == s.clients[c].keys - (a + b);
    SetTwice(s.clients, c, t.clients[c], u.clients[c]);
  }

  lemma LeaveTwiceWaiting(s: State, c: ClientId, a: set<Key>, b: set<Key>)
    requires c in s.clients
    requires forall p :: Kept(Leave(s, c, a), c, b, p) == Kept(s, c, a + b, p)
    ensures Leave(Leave(s, c, a), c, b).waiting == Leave(s, c, a + b).waiting
  {
  }

  lemma LeaveTwiceNokey(s: State, c: ClientId, a: set<Key>, b: set<Key>)
    requires c in s.clients
    requires forall p :: Kept(Leave(s, c, a), c, b, p) == Kept(s, c, a + b, p)
    requires forall p :: CountWants(Leave(s, c, a).clients, Kept(Leave(s, c, a), c, b, p))
                      == CountWants(s.clients, Kept(s, c, a + b, p))
    ensures Leave(Leave(s, c, a), c, b).nokey == Leave(s, c, a + b).nokey
  {
    hide CountWants, Without;
    var t := Leave(s, c, a);
    NoWants(s.clients);
    forall p | p in s.waiting && CountWants(s.clients, Kept(s, c, a + b, p)) > 0 ensures p in t.waiting {
      assert Kept(t, c, b, p) == Kept(s, c, a + b, p);
      NoneWithout(c);
    }
  }

  lemma NoneWithout(c: ClientId)
    ensures Without([], c) == []
  {
  }
}
