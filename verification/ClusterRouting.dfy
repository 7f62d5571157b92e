/**
 Where a request goes (getNodeByQuery in cluster.c): one slot for all keys of
 all queued commands, and the redirections while a slot moves.
 */
module ClusterRouting {
  import opened Sds

  type Node = nat

  /** CLUSTER_REDIR_*; `Go` is no redirection. */
  datatype Redir = Go | CrossSlot | Unstable | Ask | Moved | DownState | DownUnbound | DownReadOnly

  /** A command of the request: its keys, and whether it publishes or subscribes, sharded or not. */
  datatype Cmd = Cmd(keys: seq<string>, pubsub: bool)

  datatype Cluster = Cluster(
    myself: Node,
    owner: nat -> Option<Node>,
    migratingTo: nat -> Option<Node>,
    importingFrom: nat -> Option<Node>,
    slotOf: string -> nat,
    present: string -> bool,
    healthy: bool,
    allowPubsubWhenDown: bool,
    allowReadsWhenDown: bool,
    replicaOf: Option<Node>)

  /** The request: flags of the command and of the client, and its commands (one unless EXEC). */
  datatype Request = Request(
    redirectOff: bool,
    exec: bool,
    inMulti: bool,
    cmds: seq<Cmd>,
    migrate: bool,
    asking: bool,
    readonly: bool,
    write: bool,
    queuedWrite: bool)

  datatype Answer = Answer(node: Option<Node>, redir: Redir)

  // ----- what the loop over the keys finds -----

  function KeysOf(cmds: seq<Cmd>): seq<string>
    decreases |cmds|
  {
    if cmds == [] then [] else KeysOf(cmds[..|cmds| - 1]) + cmds[|cmds| - 1].keys
  }

  predicate AnyPubsub(cmds: seq<Cmd>) {
    exists i :: 0 <= i < |cmds| && cmds[i].pubsub
  }

  /** The keys that are looked up: those before the first command that publishes or subscribes. */
  function Looked(cmds: seq<Cmd>): seq<string>
    decreases |cmds|
  {
    if cmds == [] then []
    else
      var k := |cmds| - 1;
      Looked(cmds[..k]) + if AnyPubsub(cmds) then [] else cmds[k].keys
  }

  function Missing(c: Cluster, ks: seq<string>): (n: nat)
    ensures n <= |ks|
    decreases |ks|
  {
    if ks == [] then 0 else Missing(c, ks[..|ks| - 1]) + if c.present(ks[|ks| - 1]) then 0 else 1
  }

  predicate OneSlot(c: Cluster, ks: seq<string>) {
    forall i :: 0 <= i < |ks| ==> c.slotOf(ks[i]) == c.slotOf(ks[0])
  }

  predicate DifferentKeys(ks: seq<string>) {
    exists i :: 0 <= i < |ks| && ks[i] != ks[0]
  }

  /** The slot of the first key is ours and being moved away, or being moved here. */
  predicate Migrating(c: Cluster, slot: nat) {
    c.owner(slot) == Some(c.myself) && c.migratingTo(slot).Some?
  }

  predicate Importing(c: Cluster, slot: nat) {
    !Migrating(c, slot) && c.importingFrom(slot).Some?
  }

  datatype Found = Found(slot: nat, n: Node, missing: nat, existing: nat, different: bool, pubsub: bool)

  /** The decision once the slot, its owner and the counts are known. */
  function Decide(c: Cluster, r: Request, f: Found): Answer {
    var migrating, importing := Migrating(c, f.slot), Importing(c, f.slot);
    if !c.healthy && f.pubsub && !c.allowPubsubWhenDown then Answer(None, DownState)
    else if !c.healthy && !f.pubsub && !c.allowReadsWhenDown then Answer(None, DownState)
    else if !c.healthy && !f.pubsub && r.write then Answer(None, DownReadOnly)
    else if (migrating || importing) && r.migrate then Answer(Some(c.myself), Go)
    else if migrating && f.missing > 0 then
      if f.existing > 0 then Answer(None, Unstable) else Answer(c.migratingTo(f.slot), Ask)
    else if importing && r.asking then
      if f.different && f.missing > 0 then Answer(None, Unstable) else Answer(Some(c.myself), Go)
    else if (r.readonly || f.pubsub) && !(r.write || (r.exec && r.queuedWrite)) && c.replicaOf == Some(f.n)
    then Answer(Some(c.myself), Go)
    else Answer(Some(f.n), if f.n != c.myself then Moved else Go)
  }

  /** The whole answer, from the keys of the request. */
  function Route(c: Cluster, r: Request): Answer {
    var ks := KeysOf(r.cmds);
    if r.redirectOff || (r.exec && !r.inMulti) || ks == [] then Answer(Some(c.myself), Go)
    else
      var slot := c.slotOf(ks[0]);
      if c.owner(slot).None? then Answer(None, DownUnbound)
      else if !OneSlot(c, ks) then Answer(None, CrossSlot)
      else
        var moving := Migrating(c, slot) || Importing(c, slot);
        var looked := if moving then Looked(r.cmds) else [];
        Decide(c, r, Found(slot, c.owner(slot).value, Missing(c, looked), |looked| - Missing(c, looked),
                           Importing(c, slot) && DifferentKeys(ks), AnyPubsub(r.cmds)))
  }

  /** What the loop knows after the keys `ks`. */
  datatype Scan = Scan(
    first: Option<string>, n: Option<Node>, slot: nat,
    migrating: bool, importing: bool, multiple: bool, missing: nat, existing: nat)

  ghost predicate Summary(c: Cluster, ks: seq<string>, looked: seq<string>, s: Scan) {
    && s.missing == Missing(c, looked) && s.existing == |looked| - s.missing
    && if ks == [] then s.first == None && s.n == None && !s.migrating && !s.importing && !s.multiple
       else
         && s.first == Some(ks[0]) && s.slot == c.slotOf(ks[0])
         && s.n == c.owner(s.slot) && s.n.Some?
         && s.migrating == Migrating(c, s.slot) && s.importing == Importing(c, s.slot)
         && OneSlot(c, ks)
         && s.multiple == (s.importing && DifferentKeys(ks))
  }

  /** One turn of the inner loop, for a key; an answer ends the loop. */
  method NextKey(c: Cluster, s: Scan, key: string, pubsub: bool, ghost ks: seq<string>, ghost looked: seq<string>)
    returns (t: Scan, end: Option<Answer>)
    requires Summary(c, ks, looked, s)
    ensures end == None ==>
              var moving := t.migrating || t.importing;
              Summary(c, ks + [key], if moving && !pubsub then looked + [key] else looked, t)
              && (ks != [] ==> moving == (s.migrating || s.importing))
    ensures end.Some? ==>
              (ks == [] && c.owner(c.slotOf(key)) == None && end.value == Answer(None, DownUnbound))
              || (ks != [] && !OneSlot(c, ks + [key]) && end.value == Answer(None, CrossSlot))
  {
    hide Missing;
    t, end := s, None;
    var slot := c.slotOf(key);
    if s.first.None? {
      var n := c.owner(slot);
      if n.None? {
        return t, Some(Answer(None, DownUnbound));
      }
      t := t.(first := Some(key), slot := slot, n := n);
      if n == Some(c.myself) && c.migratingTo(slot).Some? {
        t := t.(migrating := true);
      } else if c.importingFrom(slot).Some? {
        t := t.(importing := true);
      }
    } else {
      if s.slot != slot {
        assert (ks + [key])[|ks|] == key;
        return t, Some(Answer(None, CrossSlot));
      }
      if s.importing && !s.multiple && s.first != Some(key) {
        t := t.(multiple := true);
      }
    }
    MoreKeys(c, ks, key);
    LookUp(c, looked, key);
    if (t.migrating || t.importing) && !pubsub {
      if !c.present(key) { t := t.(missing := t.missing + 1); } else { t := t.(existing := t.existing + 1); }
    }
  }

  lemma MoreKeys(c: Cluster, ks: seq<string>, key: string)
    ensures ks == [] ==> OneSlot(c, ks + [key]) && !DifferentKeys(ks + [key])
    ensures ks != [] ==> (OneSlot(c, ks + [key]) <==> OneSlot(c, ks) && c.slotOf(key) == c.slotOf(ks[0]))
    ensures ks != [] ==> (DifferentKeys(ks + [key]) <==> DifferentKeys(ks) || key != ks[0])
  {
    var all := ks + [key];
    assert all[|ks|] == key;
    assert forall i :: 0 <= i < |ks| ==> all[i] == ks[i];
  }

  lemma LookUp(c: Cluster, looked: seq<string>, key: string)
    ensures Missing(c, looked + [key]) == Missing(c, looked) + if c.present(key) then 0 else 1
  {
    assert (looked + [key])[..|looked|] == looked;
  }

  /** The keys up to some key of some command come first among all keys. */
  lemma {:induction false} KeysPrefix(cmds: seq<Cmd>, i: nat, j: nat)
    requires i < |cmds| && j <= |cmds[i].keys|
    ensures KeysOf(cmds[..i]) + cmds[i].keys[..j] <= KeysOf(cmds)
    decreases |cmds|
  {
    var k := |cmds| - 1;
    if i == k {
      assert KeysOf(cmds) == KeysOf(cmds[..i]) + cmds[i].keys;
    } else {
      KeysPrefix(cmds[..k], i, j);
      assert cmds[..k][..i] == cmds[..i];
    }
  }

  lemma NextCommand(cmds: seq<Cmd>, i: nat)
    requires i < |cmds|
    ensures KeysOf(cmds[..i + 1]) == KeysOf(cmds[..i]) + cmds[i].keys
    ensures AnyPubsub(cmds[..i + 1]) == (AnyPubsub(cmds[..i]) || cmds[i].pubsub)
    ensures Looked(cmds[..i + 1]) == Looked(cmds[..i]) + if AnyPubsub(cmds[..i + 1]) then [] else cmds[i].keys
  {
    var now := cmds[..i + 1];
    assert now[..i] == cmds[..i] && now[i] == cmds[i];
    assert forall k :: 0 <= k < i ==> now[k] == cmds[..i][k];
  }

  lemma {:induction false} LookedNone(cmds: seq<Cmd>)
    requires KeysOf(cmds) == []
    ensures Looked(cmds) == []
    decreases |cmds|
  {
    if cmds != [] {
      LookedNone(cmds[..|cmds| - 1]);
    }
  }

  lemma NoKeysYet(c: Cluster)
    ensures Summary(c, [], [], Scan(None, None, 0, false, false, false, 0, 0))
    ensures KeysOf([]) == [] && Looked([]) == [] && !AnyPubsub([])
  {
  }

  /** What has been looked up: nothing until the slot is known to be moving. */
  ghost function LookedSo(s: Scan, before: seq<string>, keys: seq<string>, pubsub: bool): seq<string> {
    if s.migrating || s.importing then before + if pubsub then [] else keys else []
  }

  lemma LookedNext(s: Scan, t: Scan, cmds: seq<Cmd>, keys: seq<string>, j: nat, pubsub: bool)
    requires j < |keys|
    requires var seen := KeysOf(cmds) + keys[..j];
             if seen == [] then !s.migrating && !s.importing
             else (t.migrating || t.importing) == (s.migrating || s.importing)
    ensures var so := LookedSo(s, Looked(cmds), keys[..j], pubsub);
            LookedSo(t, Looked(cmds), keys[..j + 1], pubsub)
            == if (t.migrating || t.importing) && !pubsub then so + [keys[j]] else so
  {
    hide KeysOf, Looked;
    assert keys[..j + 1] == keys[..j] + [keys[j]];
    if KeysOf(cmds) + keys[..j] == [] {
      LookedNone(cmds);
    }
  }

  /** An error inside the loop is the answer, whatever follows. */
  lemma EndsRoute(c: Cluster, r: Request, seen: seq<string>, key: string, a: Answer)
    requires !r.redirectOff && !(r.exec && !r.inMulti) && seen + [key] <= KeysOf(r.cmds)
    requires (seen == [] && c.owner(c.slotOf(key)) == None && a == Answer(None, DownUnbound))
             || (seen != [] && c.owner(c.slotOf(seen[0])).Some? && !OneSlot(c, seen + [key]) && a == Answer(None, CrossSlot))
    ensures Route(c, r) == a
  {
    hide KeysOf, Looked, Decide;
    var ks := KeysOf(r.cmds);
    assert (seen + [key])[0] == ks[0];
    if seen != [] {
      var i :| 0 <= i < |seen + [key]| && c.slotOf((seen + [key])[i]) != c.slotOf((seen + [key])[0]);
      assert ks[i] == (seen + [key])[i];
    }
  }

  lemma OwnerKnown(c: Cluster, ks: seq<string>, looked: seq<string>, s: Scan)
    requires Summary(c, ks, looked, s)
    ensures if ks == [] then !s.migrating && !s.importing else c.owner(c.slotOf(ks[0])).Some?
  {
  }

  /** What is left after the loop. */
  lemma FinishRoute(c: Cluster, r: Request, s: Scan)
    requires !r.redirectOff && !(r.exec && !r.inMulti)
    requires Summary(c, KeysOf(r.cmds), LookedSo(s, Looked(r.cmds), [], true), s)
    ensures s.n.None? ==> Route(c, r) == Answer(Some(c.myself), Go)
    ensures s.n.Some? ==>
              && s.migrating == Migrating(c, s.slot) && s.importing == Importing(c, s.slot)
              && Route(c, r) == Decide(c, r, Found(s.slot, s.n.value, s.missing, s.existing, s.multiple, AnyPubsub(r.cmds)))
  {
    hide KeysOf, Looked, Decide, Missing, AnyPubsub, DifferentKeys, OneSlot;
    assert Looked(r.cmds) + [] == Looked(r.cmds);
  }

  /** The request has keys, and redirections apply to it. */
  predicate Routed(r: Request) {
    !r.redirectOff && (r.exec ==> r.inMulti) && KeysOf(r.cmds) != []
  }

  /** What the answer says of the slots of the keys. */
  ghost predicate AnswerMeans(c: Cluster, r: Request, a: Answer) {
    var ks := KeysOf(r.cmds);
    && (Routed(r) && a.node.Some? ==> OneSlot(c, ks) && c.owner(c.slotOf(ks[0])).Some?)
    && (a.redir == CrossSlot <==> Routed(r) && c.owner(c.slotOf(ks[0])).Some? && !OneSlot(c, ks))
    && (a.redir == DownUnbound <==> Routed(r) && c.owner(c.slotOf(ks[0])).None?)
    && (a.redir == Moved ==> Routed(r) && a.node == c.owner(c.slotOf(ks[0])) && a.node != Some(c.myself))
  }

  lemma RouteMeans(c: Cluster, r: Request)
    ensures AnswerMeans(c, r, Route(c, r))
  {
    hide KeysOf, Looked, OneSlot, Missing, AnyPubsub, DifferentKeys;
  }

  /**
   getNodeByQuery. A node is given only if all keys of all commands share one
   bound slot; CROSSSLOT exactly if the first slot is bound and another key
   lies elsewhere; MOVED names the owner, and never this node.
   */
  method GetNodeByQuery(c: Cluster, r: Request) returns (a: Answer)
    ensures a == Route(c, r)
    ensures AnswerMeans(c, r, a)
  {
    hide Missing, AnyPubsub, DifferentKeys, KeysOf, Looked, OneSlot, Decide, Summary, AnswerMeans;
    RouteMeans(c, r);
    if r.redirectOff {
      return Answer(Some(c.myself), Go);
    }
    if r.exec && !r.inMulti {
      return Answer(Some(c.myself), Go);
    }
    var s := Scan(None, None, 0, false, false, false, 0, 0);
    var pubsub := false;
    NoKeysYet(c);
    assert r.cmds[..0] == [];
    for i := 0 to |r.cmds|
      invariant pubsub == AnyPubsub(r.cmds[..i])
      invariant Summary(c, KeysOf(r.cmds[..i]), LookedSo(s, Looked(r.cmds[..i]), [], true), s)
    {
      var cmd := r.cmds[i];
      ghost var ks, looked := KeysOf(r.cmds[..i]), Looked(r.cmds[..i]);
      NextCommand(r.cmds, i);
      if !pubsub && cmd.pubsub {
        pubsub := true;
      }
      assert ks + cmd.keys[..0] == ks && looked + [] == looked;
      assert LookedSo(s, looked, cmd.keys[..0], pubsub) == LookedSo(s, looked, [], true);
      for j := 0 to |cmd.keys|
        invariant Summary(c, ks + cmd.keys[..j], LookedSo(s, looked, cmd.keys[..j], pubsub), s)
      {
        var key := cmd.keys[j];
        ghost var seen := ks + cmd.keys[..j];
        ghost var so := LookedSo(s, looked, cmd.keys[..j], pubsub);
        assert ks + cmd.keys[..j + 1] == seen + [key];
        KeysPrefix(r.cmds, i, j + 1);
        OwnerKnown(c, seen, so, s);
        var t, end := NextKey(c, s, key, pubsub, seen, so);
        if end.Some? {
          EndsRoute(c, r, seen, key, end.value);
          return end.value;
        }
        LookedNext(s, t, r.cmds[..i], cmd.keys, j, pubsub);
        s := t;
      }
      assert cmd.keys[..|cmd.keys|] == cmd.keys;
      assert Looked(r.cmds[..i + 1]) + [] == looked + if pubsub then [] else cmd.keys;
    }
    assert r.cmds[..|r.cmds|] == r.cmds;
    FinishRoute(c, r, s);
    a := Conclude(c, r, s, pubsub);
  }

  /** The decision chain at the end of getNodeByQuery. */
  method Conclude(c: Cluster, r: Request, s: Scan, pubsub: bool) returns (a: Answer)
    requires s.n.Some? ==> s.migrating == Migrating(c, s.slot) && s.importing == Importing(c, s.slot)
    ensures s.n.None? ==> a == Answer(Some(c.myself), Go)
    ensures s.n.Some? ==> a == Decide(c, r, Found(s.slot, s.n.value, s.missing, s.existing, s.multiple, pubsub))
  {
    if s.n.None? {
      return Answer(Some(c.myself), Go);
    }
    if !c.healthy {
      if pubsub {
        if !c.allowPubsubWhenDown { return Answer(None, DownState); }
      } else if !c.allowReadsWhenDown {
        return Answer(None, DownState);
      } else if r.write {
        return Answer(None, DownReadOnly);
      }
    }
    if (s.migrating || s.importing) && r.migrate {
      return Answer(Some(c.myself), Go);
    }
    if s.migrating && s.missing > 0 {
      if s.existing > 0 {
        return Answer(None, Unstable);
      }
      return Answer(c.migratingTo(s.slot), Ask);
    }
    if s.importing && r.asking {
      if s.multiple && s.missing > 0 {
        return Answer(None, Unstable);
      }
      return Answer(Some(c.myself), Go);
    }
    var isWrite := r.write || (r.exec && r.queuedWrite);
    if (r.readonly || pubsub) && !isWrite && c.replicaOf == s.n {
      return Answer(Some(c.myself), Go);
    }
    return Answer(s.n, if s.n != Some(c.myself) then Moved else Go);
  }

  // ----- what the answer means -----

  predicate AllPresent(c: Cluster, ks: seq<string>) {
    forall i :: 0 <= i < |ks| ==> c.present(ks[i])
  }

  predicate NonePresent(c: Cluster, ks: seq<string>) {
    forall i :: 0 <= i < |ks| ==> !c.present(ks[i])
  }

  lemma {:induction false} MissingMeans(c: Cluster, ks: seq<string>)
    ensures Missing(c, ks) == 0 <==> AllPresent(c, ks)
    ensures Missing(c, ks) == |ks| <==> NonePresent(c, ks)
    decreases |ks|
  {
    if ks != [] {
      var k := |ks| - 1;
      MissingMeans(c, ks[..k]);
      assert forall i :: 0 <= i < k ==> ks[..k][i] == ks[i];
    }
  }

  /** The keys looked up come first among all keys; they are all of them when nothing publishes or subscribes. */
  lemma {:induction false} LookedFirst(cmds: seq<Cmd>)
    ensures Looked(cmds) <= KeysOf(cmds)
    ensures !AnyPubsub(cmds) ==> Looked(cmds) == KeysOf(cmds)
    decreases |cmds|
  {
    if cmds != [] {
      var k := |cmds| - 1;
      assert forall i :: 0 <= i < k ==> cmds[..k][i] == cmds[i];
      LookedFirst(cmds[..k]);
    }
  }

  /**
   In a healthy cluster, on a slot this node is migrating: a request other than
   MIGRATE is served here exactly when every key that is looked up is here, is
   sent to the target exactly when there are such keys and none is here, and
   is to be tried again otherwise. Unless a command publishes or subscribes,
   all keys are looked up.
   */
  lemma MigratingRoute(c: Cluster, r: Request)
    requires Routed(r) && OneSlot(c, KeysOf(r.cmds)) && Migrating(c, c.slotOf(KeysOf(r.cmds)[0]))
    requires c.healthy && !r.migrate
    ensures var ks := Looked(r.cmds);
            var a := Route(c, r);
            && (a == Answer(Some(c.myself), Go) <==> AllPresent(c, ks))
            && (a == Answer(c.migratingTo(c.slotOf(KeysOf(r.cmds)[0])), Ask) <==> ks != [] && NonePresent(c, ks))
            && (a == Answer(None, Unstable) <==> !AllPresent(c, ks) && !NonePresent(c, ks))
            && (!AnyPubsub(r.cmds) ==> ks == KeysOf(r.cmds))
  {
    hide KeysOf, Looked, Missing, AllPresent, NonePresent, AnyPubsub;
    LookedFirst(r.cmds);
    MissingMeans(c, Looked(r.cmds));
  }

  /**
   Served with a key missing: exactly when every key looked up is here and some
   key after the first command that publishes or subscribes is not.
   */
  lemma ServedWithout(c: Cluster, r: Request)
    requires Routed(r) && OneSlot(c, KeysOf(r.cmds)) && Migrating(c, c.slotOf(KeysOf(r.cmds)[0]))
    requires c.healthy && !r.migrate
    ensures var all, ks := KeysOf(r.cmds), Looked(r.cmds);
            && ks <= all
            && (Route(c, r) == Answer(Some(c.myself), Go) && !AllPresent(c, all)
                <==> AllPresent(c, ks) && !AllPresent(c, all[|ks|..]))
  {
    hide KeysOf, Looked, Route, AnyPubsub, NonePresent, OneSlot;
    MigratingRoute(c, r);
    LookedFirst(r.cmds);
    var all, ks := KeysOf(r.cmds), Looked(r.cmds);
    assert all == ks + all[|ks|..];
    AllOfTwo(c, ks, all[|ks|..]);
  }

  lemma AllOfTwo(c: Cluster, a: seq<string>, b: seq<string>)
    ensures AllPresent(c, a + b) <==> AllPresent(c, a) && AllPresent(c, b)
  {
    assert forall i :: 0 <= i < |a| ==> (a + b)[i] == a[i];
    assert forall i :: 0 <= i < |b| ==> (a + b)[|a| + i] == b[i];
  }

  /** MULTI, PUBLISH, GET k, EXEC on a migrating slot: k is not looked up, and the request is served without it. */
  lemma PublishHidesKey(c: Cluster, r: Request)
    requires r.cmds == [Cmd([], true), Cmd(["k"], false)] && r.exec && r.inMulti && !r.redirectOff && !r.migrate
    requires c.healthy && Migrating(c, c.slotOf("k")) && !c.present("k")
    ensures Route(c, r) == Answer(Some(c.myself), Go)
  {
    hide KeysOf, Looked, Route, AnyPubsub;
    var cmds := r.cmds;
    NoKeysYet(c);
    assert cmds[..0] == [] && cmds[..2] == cmds;
    NextCommand(cmds, 0);
    NextCommand(cmds, 1);
    assert KeysOf(cmds[..1]) == [] && KeysOf(cmds) == ["k"] && Looked(cmds) == [];
    MigratingRoute(c, r);
  }

  /**
   On a slot being imported, an ASKING request is served here unless it names
   different keys and one of those looked up has not arrived.
   */
  lemma ImportingRoute(c: Cluster, r: Request)
    requires Routed(r) && OneSlot(c, KeysOf(r.cmds)) && Importing(c, c.slotOf(KeysOf(r.cmds)[0]))
    requires c.owner(c.slotOf(KeysOf(r.cmds)[0])).Some?
    requires c.healthy && !r.migrate && r.asking
    ensures Route(c, r) == if DifferentKeys(KeysOf(r.cmds)) && !AllPresent(c, Looked(r.cmds)) then Answer(None, Unstable)
                           else Answer(Some(c.myself), Go)
  {
    hide KeysOf, Looked, Missing, AllPresent, NonePresent, AnyPubsub, DifferentKeys;
    MissingMeans(c, Looked(r.cmds));
  }
}
