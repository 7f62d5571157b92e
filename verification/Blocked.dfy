/**
 Clients blocked on keys (blocked.c): each client's own map of the keys it
 waits for, each key's queue of waiting clients, the count of those that also
 want to hear of the key's removal, and the counters by kind of blocking.

 `Slot` is a key of one database. A client's entry for a key holds the address
 of its node in the key's queue; `Node.id` stands for that address.
 */
module Blocked {

  type Key = string
  type ClientId = nat

  datatype Slot = Slot(db: nat, key: Key)
  datatype Node = Node(id: nat, client: ClientId)

  /** blocking_type, without the blocking of modules. */
  datatype BType = NotBlocked | OnList | OnZset | OnStream | Wait | WaitAof | Postpone | Shutdown | LazyFree

  predicate OnKeys(bt: BType) {
    bt.OnList? || bt.OnZset? || bt.OnStream?
  }

  datatype Client = Client(
    db: nat,
    blocked: bool,
    btype: BType,
    keys: map<Key, nat>,
    nokey: bool,
    pending: bool,
    queued: bool)

  datatype State = State(
    clients: map<ClientId, Client>,
    waiting: map<Slot, seq<Node>>,
    nokey: map<Slot, nat>,
    dbReady: set<Slot>,
    ready: seq<Slot>,
    blocked: int,
    byType: map<BType, int>,
    unblocked: seq<ClientId>,
    nextId: nat,
    keyspace: set<Slot>)  // the keys that exist

  // ----- blocking -----

  function Queue(s: State, p: Slot): seq<Node> {
    if p in s.waiting then s.waiting[p] else []
  }

  function Nokeys(s: State, p: Slot): nat {
    if p in s.nokey then s.nokey[p] else 0
  }

  function SetClient(s: State, c: ClientId, cl: Client): State {
    s.(clients := s.clients[c := cl])
  }

  /** One turn of the loop of blockForKeys. */
  function AddKey(s: State, c: ClientId, k: Key, nokey: bool): State
    requires c in s.clients
  {
    var cl := s.clients[c];
    if k in cl.keys then s
    else
      var p := Slot(cl.db, k);
      SetClient(s, c, cl.(keys := cl.keys[k := s.nextId])).(
        waiting := s.waiting[p := Queue(s, p) + [Node(s.nextId, c)]],
        nokey := if nokey then s.nokey[p := Nokeys(s, p) + 1] else s.nokey,
        nextId := s.nextId + 1)
  }

  function AddKeys(s: State, c: ClientId, ks: seq<Key>, nokey: bool): (r: State)
    requires c in s.clients
    ensures c in r.clients
    decreases |ks|
  {
    if ks == [] then s
    else
      var i := |ks| - 1;
      AddKey(AddKeys(s, c, ks[..i], nokey), c, ks[i], nokey)
  }

  /** blockClient */
  function BlockClient(s: State, c: ClientId, bt: BType): State
    requires c in s.clients && bt in s.byType
  {
    SetClient(s, c, s.clients[c].(blocked := true, btype := bt)).(
      blocked := s.blocked + 1,
      byType := s.byType[bt := s.byType[bt] + 1])
  }

  /** blockForKeys */
  function BlockForKeys(s: State, c: ClientId, bt: BType, ks: seq<Key>, nokey: bool): State
    requires c in s.clients && bt in s.byType
  {
    var t := AddKeys(s, c, ks, nokey);
    AddKeysFrame(s, c, ks, nokey);
    BlockClient(SetClient(t, c, t.clients[c].(nokey := nokey, pending := true)), c, bt)
  }

  lemma {:induction false} AddKeysFrame(s: State, c: ClientId, ks: seq<Key>, nokey: bool)
    requires c in s.clients
    ensures var t := AddKeys(s, c, ks, nokey);
            && t.clients.Keys == s.clients.Keys && t.byType == s.byType && t.blocked == s.blocked
            && t.dbReady == s.dbReady && t.ready == s.ready && t.unblocked == s.unblocked
            && t.keyspace == s.keyspace
            && t.clients[c] == s.clients[c].(keys := t.clients[c].keys)
            && forall d :: d in s.clients && d != c ==> t.clients[d] == s.clients[d]
    decreases |ks|
  {
    hide AddKey;
    if ks != [] {
      var i := |ks| - 1;
      AddKeysFrame(s, c, ks[..i], nokey);
      AddKeyFrame(AddKeys(s, c, ks[..i], nokey), c, ks[i], nokey);
    }
  }

  // ----- unblocking -----

  /** listUnlinkNode */
  function Unlink(l: seq<Node>, id: nat): seq<Node>
    decreases |l|
  {
    if l == [] then [] else if l[0].id == id then l[1..] else [l[0]] + Unlink(l[1..], id)
  }

  /** What releaseBlockedEntry asserts of its arguments. */
  predicate Releasable(s: State, c: ClientId, k: Key) {
    && c in s.clients
    && k in s.clients[c].keys
    && var p := Slot(s.clients[c].db, k);
      && p in s.waiting
      && (s.clients[c].nokey && Unlink(s.waiting[p], s.clients[c].keys[k]) != []
          ==> p in s.nokey && s.nokey[p] > 0)
  }

  /** releaseBlockedEntry, up to the removal of the client's own entry. */
  function Release(s: State, c: ClientId, k: Key): State
    requires Releasable(s, c, k)
  {
    var cl := s.clients[c];
    var p := Slot(cl.db, k);
    var l := Unlink(s.waiting[p], cl.keys[k]);
    if l == [] then s.(waiting := s.waiting - {p}, nokey := s.nokey - {p})
    else
      var t := s.(waiting := s.waiting[p := l]);
      if !cl.nokey then t
      else if s.nokey[p] == 1 then t.(nokey := s.nokey - {p})
      else t.(nokey := s.nokey[p := s.nokey[p] - 1])
  }

  function Forget(s: State, c: ClientId, k: Key): State
    requires c in s.clients
  {
    SetClient(s, c, s.clients[c].(keys := s.clients[c].keys - {k}))
  }

  /** queueClientForReprocessing */
  function Requeue(s: State, c: ClientId): State
    requires c in s.clients
  {
    if s.clients[c].queued then s
    else SetClient(s, c, s.clients[c].(queued := true)).(unblocked := s.unblocked + [c])
  }

  /** unblockClient, once the client waits for no key any more. */
  function Unmark(s: State, c: ClientId, queue: bool): State
    requires c in s.clients && s.clients[c].btype in s.byType
  {
    var cl := s.clients[c];
    var t := SetClient(s, c, cl.(blocked := false, btype := NotBlocked, nokey := false)).(
      blocked := s.blocked - 1,
      byType := s.byType[cl.btype := s.byType[cl.btype] - 1]);
    if queue then Requeue(t, c) else t
  }

  // ----- the invariant -----

  predicate NodeOk(clients: map<ClientId, Client>, p: Slot, n: Node) {
    && n.client in clients
    && clients[n.client].db == p.db
    && p.key in clients[n.client].keys
    && clients[n.client].keys[p.key] == n.id
  }

  predicate QueueOk(s: State, p: Slot, l: seq<Node>) {
    && l != []
    && (forall i :: 0 <= i < |l| ==> NodeOk(s.clients, p, l[i]) && l[i].id < s.nextId)
    && (forall i, j :: 0 <= i < j < |l| ==> l[i].id != l[j].id)
  }

  predicate ClientOk(s: State, c: ClientId) {
    && c in s.clients
    && var cl := s.clients[c];
      && (cl.blocked <==> cl.btype != NotBlocked)
      && (cl.keys != map[] ==> OnKeys(cl.btype))
      && (cl.nokey ==> OnKeys(cl.btype))
      && forall k :: k in cl.keys ==> Node(cl.keys[k], c) in Queue(s, Slot(cl.db, k))
  }

  /** The two indexes mirror each other, node by node. */
  predicate Mirrored(s: State) {
    && (forall p :: p in s.waiting ==> QueueOk(s, p, s.waiting[p]))
    && (forall c :: c in s.clients ==> ClientOk(s, c))
  }

  predicate Wants(clients: map<ClientId, Client>, n: Node) {
    n.client in clients && clients[n.client].nokey
  }

  /** How many of the waiting clients want to hear of the key's removal. */
  function CountWants(clients: map<ClientId, Client>, l: seq<Node>): nat
    decreases |l|
  {
    if l == [] then 0 else (if Wants(clients, l[0]) then 1 else 0) + CountWants(clients, l[1..])
  }

  predicate NokeyOk(s: State) {
    && (forall p :: p in s.nokey ==> s.nokey[p] > 0 && s.nokey[p] == CountWants(s.clients, Queue(s, p)))
    && (forall p :: p in s.waiting && p !in s.nokey ==> CountWants(s.clients, s.waiting[p]) == 0)
  }

  function BlockedSet(clients: map<ClientId, Client>): set<ClientId> {
    set c | c in clients && clients[c].blocked
  }

  function OfType(clients: map<ClientId, Client>, bt: BType): set<ClientId> {
    set c | c in clients && clients[c].blocked && clients[c].btype == bt
  }

  ghost predicate CountersOk(s: State) {
    && s.blocked == |BlockedSet(s.clients)|
    && forall bt :: bt != NotBlocked ==> bt in s.byType && s.byType[bt] == |OfType(s.clients, bt)|
  }

  /** No key is queued twice, and the set of queued keys is exact. */
  ghost predicate ReadyOk(s: State) {
    && Distinct(s.ready)
    && (forall p :: p in s.dbReady <==> p in s.ready)
  }

  predicate Distinct<T(==)>(l: seq<T>) {
    forall i, j :: 0 <= i < j < |l| ==> l[i] != l[j]
  }

  /** No client is queued twice, and the flag says who is queued. */
  predicate UnblockedOk(s: State) {
    && Distinct(s.unblocked)
    && (forall i :: 0 <= i < |s.unblocked| ==> s.unblocked[i] in s.clients)
    && (forall c :: c in s.clients ==> (s.clients[c].queued <==> c in s.unblocked))
  }

  ghost predicate Inv(s: State) {
    Mirrored(s) && NokeyOk(s) && CountersOk(s) && ReadyOk(s) && UnblockedOk(s)
  }

  // ----- what unblocking leaves -----

  /** The queue without a client, the others in their order. */
  function Without(l: seq<Node>, c: ClientId): seq<Node>
    decreases |l|
  {
    if l == [] then [] else (if l[0].client == c then [] else [l[0]]) + Without(l[1..], c)
  }

  /** The queue of a slot once the client has left the keys `r` of its database. */
  function Kept(s: State, c: ClientId, r: set<Key>, p: Slot): seq<Node>
    requires c in s.clients
  {
    if p.db == s.clients[c].db && p.key in r then Without(Queue(s, p), c) else Queue(s, p)
  }

  /** The server's side of leaving the keys `r`: no empty queue and no zero count stays behind. */
  function Parted(s: State, c: ClientId, r: set<Key>): State
    requires c in s.clients
  {
    s.(waiting := map p | p in s.waiting && Kept(s, c, r, p) != [] :: Kept(s, c, r, p),
       nokey := map p | p in s.waiting && CountWants(s.clients, Kept(s, c, r, p)) > 0
                  :: CountWants(s.clients, Kept(s, c, r, p)))
  }

  /** Both sides. */
  function Leave(s: State, c: ClientId, r: set<Key>): State
    requires c in s.clients
  {
    SetClient(Parted(s, c, r), c, s.clients[c].(keys := s.clients[c].keys - r))
  }

  /** unblockClient: the client leaves every key it waited for. */
  function Unblock(s: State, c: ClientId, queue: bool): State
    requires c in s.clients && s.clients[c].btype in s.byType
  {
    Unmark(Leave(s, c, s.clients[c].keys.Keys), c, queue)
  }

  // ----- queues -----

  lemma {:induction false} WithoutKeeps(l: seq<Node>, c: ClientId, n: Node)
    ensures n in Without(l, c) <==> n in l && n.client != c
    decreases |l|
  {
    if l != [] {
      WithoutKeeps(l[1..], c, n);
    }
  }

  lemma {:induction false} WithoutDistinct(l: seq<Node>, c: ClientId)
    requires forall i, j :: 0 <= i < j < |l| ==> l[i].id != l[j].id
    ensures var m := Without(l, c); forall i, j :: 0 <= i < j < |m| ==> m[i].id != m[j].id
    decreases |l|
  {
    if l != [] {
      WithoutDistinct(l[1..], c);
      var m := Without(l[1..], c);
      forall j | 0 <= j < |m| ensures m[j].id != l[0].id {
        WithoutKeeps(l[1..], c, m[j]);
      }
    }
  }

  lemma {:induction false} WithoutAbsent(l: seq<Node>, c: ClientId)
    requires forall i :: 0 <= i < |l| ==> l[i].client != c
    ensures Without(l, c) == l
    decreases |l|
  {
    if l != [] {
      WithoutAbsent(l[1..], c);
    }
  }

  /** When the address belongs to the client's one node, unlinking it removes the client. */
  lemma {:induction false} UnlinkIsWithout(l: seq<Node>, id: nat, c: ClientId)
    requires forall i :: 0 <= i < |l| ==> (l[i].client == c <==> l[i].id == id)
    requires forall i, j :: 0 <= i < j < |l| ==> l[i].id != l[j].id
    ensures Unlink(l, id) == Without(l, c)
    decreases |l|
  {
    if l != [] {
      if l[0].id == id {
        WithoutAbsent(l[1..], c);
      } else {
        UnlinkIsWithout(l[1..], id, c);
      }
    }
  }

  lemma {:induction false} WantsSame(a: map<ClientId, Client>, b: map<ClientId, Client>, l: seq<Node>)
    requires forall i :: 0 <= i < |l| ==> Wants(a, l[i]) == Wants(b, l[i])
    ensures CountWants(a, l) == CountWants(b, l)
    decreases |l|
  {
    if l != [] {
      WantsSame(a, b, l[1..]);
    }
  }

  lemma {:induction false} WantsSnoc(a: map<ClientId, Client>, l: seq<Node>, n: Node)
    ensures CountWants(a, l + [n]) == CountWants(a, l) + if Wants(a, n) then 1 else 0
    decreases |l|
  {
    if l == [] {
      assert l + [n] == [n] && [n][1..] == [];
    } else {
      assert (l + [n])[1..] == l[1..] + [n];
      WantsSnoc(a, l[1..], n);
    }
  }

  /** The client's one node counts for one if the client wants to hear of removals. */
  lemma {:induction false} WantsUnlink(a: map<ClientId, Client>, l: seq<Node>, id: nat, c: ClientId)
    requires Node(id, c) in l
    requires forall i, j :: 0 <= i < j < |l| ==> l[i].id != l[j].id
    ensures CountWants(a, l) == CountWants(a, Unlink(l, id)) + if Wants(a, Node(id, c)) then 1 else 0
    decreases |l|
  {
    if l[0].id == id {
      assert l[0] == Node(id, c);
    } else {
      WantsUnlink(a, l[1..], id, c);
      var u := Unlink(l[1..], id);
      assert ([l[0]] + u)[1..] == u;
    }
  }

  // ----- blocking keeps the invariant -----

  lemma AddKeyMirrored(s: State, c: ClientId, k: Key, nokey: bool)
    requires Mirrored(s) && c in s.clients && OnKeys(s.clients[c].btype)
    ensures Mirrored(AddKey(s, c, k, nokey))
  {
    var t := AddKey(s, c, k, nokey);
    assert ClientOk(s, c);
    if k !in s.clients[c].keys {
      forall p | p in t.waiting ensures QueueOk(t, p, t.waiting[p]) {
        AddKeyQueue(s, c, k, nokey, p);
      }
      forall d | d in t.clients ensures ClientOk(t, d) {
        AddKeyClient(s, c, k, nokey, d);
      }
    }
  }

  lemma AddKeyQueue(s: State, c: ClientId, k: Key, nokey: bool, p: Slot)
    requires Mirrored(s) && c in s.clients && k !in s.clients[c].keys
    requires p in AddKey(s, c, k, nokey).waiting
    ensures QueueOk(AddKey(s, c, k, nokey), p, AddKey(s, c, k, nokey).waiting[p])
  {
    hide ClientOk;
    if p in s.waiting {
      assert QueueOk(s, p, s.waiting[p]);
    }
  }

  lemma AddKeyClient(s: State, c: ClientId, k: Key, nokey: bool, d: ClientId)
    requires Mirrored(s) && c in s.clients && k !in s.clients[c].keys && OnKeys(s.clients[c].btype)
    requires d in s.clients
    ensures ClientOk(AddKey(s, c, k, nokey), d)
  {
    hide QueueOk;
    var t := AddKey(s, c, k, nokey);
    assert ClientOk(s, d);
    forall x | x in t.clients[d].keys
      ensures Node(t.clients[d].keys[x], d) in Queue(t, Slot(t.clients[d].db, x))
    {
      if d == c && x == k {
        var p0 := Slot(s.clients[c].db, k);
        assert Queue(t, p0)[|Queue(s, p0)|] == Node(s.nextId, c);
      }
    }
  }

  lemma AddKeyNokey(s: State, c: ClientId, k: Key)
    requires Mirrored(s) && NokeyOk(s) && c in s.clients
    ensures NokeyOk(AddKey(s, c, k, s.clients[c].nokey))
  {
    hide CountWants, QueueOk;
    var cl := s.clients[c];
    var t := AddKey(s, c, k, cl.nokey);
    if k !in cl.keys {
      var p0 := Slot(cl.db, k);
      var n := Node(s.nextId, c);
      forall p ensures CountWants(t.clients, Queue(s, p)) == CountWants(s.clients, Queue(s, p)) {
        WantsSame(s.clients, t.clients, Queue(s, p));
      }
      WantsSnoc(t.clients, Queue(s, p0), n);
      assert Wants(t.clients, n) == cl.nokey;
      NoWants(s.clients);
      assert Nokeys(s, p0) == CountWants(s.clients, Queue(s, p0));
      forall p | p in t.nokey ensures t.nokey[p] > 0 && t.nokey[p] == CountWants(t.clients, Queue(t, p)) {
        assert p != p0 ==> Queue(t, p) == Queue(s, p);
      }
      forall p | p in t.waiting && p !in t.nokey ensures CountWants(t.clients, t.waiting[p]) == 0 {
        assert p != p0 ==> Queue(t, p) == Queue(s, p) && p in s.waiting;
      }
    }
  }

  lemma NoWants(a: map<ClientId, Client>)
    ensures CountWants(a, []) == 0
  {
  }

  lemma SameCounters(s: State, t: State)
    requires CountersOk(s) && t.byType == s.byType && t.blocked == s.blocked
    requires t.clients.Keys == s.clients.Keys
    requires forall c :: c in s.clients ==>
               t.clients[c].blocked == s.clients[c].blocked && t.clients[c].btype == s.clients[c].btype
    ensures CountersOk(t)
  {
    assert BlockedSet(t.clients) == BlockedSet(s.clients);
    forall bt | bt != NotBlocked ensures |OfType(t.clients, bt)| == |OfType(s.clients, bt)| {
      assert OfType(t.clients, bt) == OfType(s.clients, bt);
    }
  }

  lemma AddKeyInv(s: State, c: ClientId, k: Key)
    requires Inv(s) && c in s.clients && OnKeys(s.clients[c].btype)
    ensures Inv(AddKey(s, c, k, s.clients[c].nokey))
  {
    hide CountersOk, Mirrored, NokeyOk, ReadyOk, UnblockedOk, AddKey;
    AddKeyMirrored(s, c, k, s.clients[c].nokey);
    AddKeyNokey(s, c, k);
    AddKeyFrame(s, c, k, s.clients[c].nokey);
    SameCounters(s, AddKey(s, c, k, s.clients[c].nokey));
    SameLists(s, AddKey(s, c, k, s.clients[c].nokey));
  }

  lemma AddKeyFrame(s: State, c: ClientId, k: Key, nokey: bool)
    requires c in s.clients
    ensures var t := AddKey(s, c, k, nokey);
            && t.clients.Keys == s.clients.Keys && t.byType == s.byType && t.blocked == s.blocked
            && t.dbReady == s.dbReady && t.ready == s.ready && t.unblocked == s.unblocked
            && t.keyspace == s.keyspace
            && t.clients[c] == s.clients[c].(keys := t.clients[c].keys)
            && forall d :: d in s.clients && d != c ==> t.clients[d] == s.clients[d]
  {
  }

  lemma SameLists(s: State, t: State)
    requires ReadyOk(s) && UnblockedOk(s)
    requires t.dbReady == s.dbReady && t.ready == s.ready && t.unblocked == s.unblocked
    requires t.clients.Keys == s.clients.Keys
    requires forall c :: c in s.clients ==> t.clients[c].queued == s.clients[c].queued
    ensures ReadyOk(t) && UnblockedOk(t)
  {
  }
}
