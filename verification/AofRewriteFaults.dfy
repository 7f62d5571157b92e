/**
 The two assumptions behind crash safety, and what happens without them: the
 manifest is persisted all or nothing, and the forced flush at the start of a
 rewrite empties the buffer.
 */
module AofRewriteFaults {
  import opened Sds
  import opened Manifest
  import opened ManifestRuns
  import opened AofLog
  import opened AofRecovery
  import opened AofFeed
  import opened AofRewrite
  import opened AofCrashSafety

  /**
   persistAofManifest returns an error. When only the final fsync of the
   directory failed, the rename has already put the new manifest in place.
   */
  function PersistBaseFails<D>(cfg: Config<D>, s: State<D>, renamed: bool): State<D>
    requires Enabled(cfg, s, PersistBase(false))
  {
    var s1 := Step(cfg, s, PersistBase(false));
    if renamed then s1.(disk := s1.disk.(manifest := Print(s.up.value.phase.next))) else s1
  }

  /**
   After a failed persist the handler unlinks the new base. The directory can
   still be loaded exactly when the rename had not taken place.
   */
  lemma FailedPersistLoads<D>(cfg: Config<D>, s: State<D>, renamed: bool)
    requires ConfigOk(cfg)
    requires Inv(cfg, s) && Enabled(cfg, s, PersistBase(false))
    ensures var s1 := PersistBaseFails(cfg, s, renamed);
            && Enabled(cfg, s1, AbandonBase)
            && (LoadAll(cfg, Step(cfg, s1, AbandonBase).disk).Some? <==> !renamed)
  {
    hide ConfigOk, LoadIncrs, LoadManifest, Replay, Attribute, EncodeAll, Sane, LinesFit, IncrName, BaseName, Print, LogOk, AsHistory;
    var v := s.up.value;
    var next := v.phase.next;
    var s1 := PersistBaseFails(cfg, s, renamed);
    assert next.base.Some?;
    var s2 := Step(cfg, s1, AbandonBase);
    if renamed {
      var rdb := next == MarkRewritten(NewBase(v.am, cfg.aofName, true), true);
      SaneNewBase(v.am, cfg.aofName, rdb);
      SaneMarkRewritten(NewBase(v.am, cfg.aofName, rdb), true, cfg.aofName);
      PersistReads(cfg, s.disk, next);
      assert next.base.value.name !in s2.disk.files;
    } else {
      hide Inv, Enabled, Step, LoadAll;
      PersistBaseInv(cfg, s, false);
      AbandonInv(cfg, s1);
      InvSafe(cfg, s2);
    }
  }

  // ----- the same for a new incremental file -----

  /**
   persistAofManifest returns an error after the rename, while a new incremental
   file is being opened. Nothing is unlinked: the server goes on with its old
   file, which the manifest on disk no longer names last. `more` are the
   commands then run and still in the buffer.
   */
  function PersistIncrFails<D>(cfg: Config<D>, s: State<D>, more: seq<Argv>): State<D>
    requires Enabled(cfg, s, PersistIncr(false))
  {
    var v := s.up.value;
    s.(disk := s.disk.(manifest := Print(v.phase.next)),
       up := Some(v.(phase := Idle, buf := EncodeAll(more))))
  }

  /**
   After such an error, and a write that gets `k` bytes to the old file: the
   directory can be loaded exactly when the old file ends with a whole
   command, outside a transaction, and then it holds what was written.
   */
  lemma FailedIncrLoads<D>(cfg: Config<D>, s: State<D>, more: seq<Argv>, k: nat)
    requires ConfigOk(cfg)
    requires Inv(cfg, s) && Enabled(cfg, s, PersistIncr(false))
    requires LogOk(cfg.known, s.log + more) && k <= |EncodeAll(more)|
    ensures var s1 := PersistIncrFails(cfg, s, more);
            var log, n := s.log + more, |EncodeAll(s.log)| + k;
            && Enabled(cfg, s1, WriteSome(k))
            && LoadAll(cfg, Step(cfg, s1, WriteSome(k)).disk)
               == if AtRest(log, n)
                  then Some(Replay(cfg, cfg.empty, s.pre + Attribute(0, Executed(log, n))))
                  else None
  {
    hide ConfigOk, LoadIncrs, LoadManifest, Replay, Attribute, EncodeAll, Sane, LinesFit, IncrName, BaseName, Print, LogOk, AtRest, Executed;
    var v, am := s.up.value, OnDisk(s.disk);
    var next := v.phase.next;
    var log, n := s.log + more, |EncodeAll(s.log)| + k;
    var s1 := PersistIncrFails(cfg, s, more);
    var x := Last(am.incr);
    var s2 := Step(cfg, s1, WriteSome(k));
    assert s2.disk.files[x.name] == Log(EncodeAll(log)[..n]) by {
      EncodeAllSplit(s.log, more);
      assert s.disk.files[x.name].bytes + "" == EncodeAll(s.log);
      assert EncodeAll(s.log) + EncodeAll(more)[..k] == (EncodeAll(s.log) + EncodeAll(more))[..n];
    }
    EncodeAllSplit(s.log, more);
    SaneNewIncr(v.am, cfg.aofName);
    PersistReads(cfg, s.disk, next);
    OldFileLoads(cfg, s, s2.disk.files, log, n);
  }

  /** The files as the new manifest names them: the closed ones, the old one, and the new one. */
  lemma OldFileLoads<D>(cfg: Config<D>, s: State<D>, files: map<string, File<D>>, log: seq<Argv>, n: nat)
    requires Inv(cfg, s) && s.up.Some? && s.up.value.phase.IncrOpened?
    requires LogOk(cfg.known, log) && n <= |EncodeAll(log)|
    requires files == s.disk.files[Last(OnDisk(s.disk).incr).name := Log(EncodeAll(log)[..n])]
    ensures var am := OnDisk(s.disk);
            && am.base.value.name in files && files[am.base.value.name] == s.disk.files[am.base.value.name]
            && LoadIncrs(cfg, files, s.up.value.phase.next.incr, s.disk.files[am.base.value.name].data, true)
               == if AtRest(log, n)
                  then Some(Replay(cfg, cfg.empty, s.pre + Attribute(0, Executed(log, n))))
                  else None
  {
    hide LoadIncrs, LoadManifest, Replay, Attribute, EncodeAll, Sane, LinesFit, IncrName, BaseName, LogOk, AtRest, Executed;
    var v, am := s.up.value, OnDisk(s.disk);
    var x, y := Last(am.incr), Last(v.phase.next.incr);
    var d := s.disk.files[am.base.value.name].data;
    var done := Executed(log, n);
    LastIsOther(am, cfg.aofName);
    NewIsOther(cfg, s);
    LoadIncrsFrame(cfg, s.disk.files, files, Front(am.incr), d, false);
    assert v.phase.next.incr == am.incr + [y] && am.incr == Front(am.incr) + [x];
    LoadIncrsSnoc(cfg, files, am.incr, y, d, true);
    LoadIncrsSnoc(cfg, files, Front(am.incr), x, d, false);
    LoadOne(cfg, files, x, Replay(cfg, cfg.empty, s.pre), log);
    ReplaySplit(cfg, cfg.empty, s.pre, Attribute(0, done));
    if AtRest(log, n) {
      EmptyLast(cfg, files, y, Replay(cfg, cfg.empty, s.pre + Attribute(0, done)));
    }
  }

  lemma NewIsOther<D>(cfg: Config<D>, s: State<D>)
    requires Inv(cfg, s) && s.up.Some? && s.up.value.phase.IncrOpened?
    ensures Last(OnDisk(s.disk).incr).name != Last(s.up.value.phase.next.incr).name
  {
    hide LoadIncrs, LoadManifest, Replay, Attribute, EncodeAll, Sane, LinesFit, IncrName, BaseName, LogOk;
    NextNotLive(s.up.value.am, OnDisk(s.disk), cfg.aofName, false);
  }

  lemma EmptyLast<D>(cfg: Config<D>, files: map<string, File<D>>, y: Info, d: D)
    requires y.name in files && files[y.name] == Log("")
    ensures LoadIncrs(cfg, files, [y], d, true) == Some(d)
  {
    hide LoadIncrs, Replay;
    NothingLogged([]);
    LoadOne(cfg, files, y, d, []);
    ReplayNone(cfg, d);
  }

  lemma ReplayNone<D>(cfg: Config<D>, d: D)
    ensures Replay(cfg, d, []) == d
  {
  }

  // ----- a buffer that is not drained -----

  /** StartRewrite where the forced flush could not empty the buffer. */
  function StartUndrained<D>(cfg: Config<D>, s: State<D>): State<D>
    requires s.up.Some?
  {
    var v := s.up.value;
    var am := NewIncr(v.am, cfg.aofName);
    s.(disk := s.disk.(files := s.disk.files[IncrName(cfg.aofName, am.currIncrSeq) := Log("")]),
       up := Some(v.(selectedDb := -1, phase := IncrOpened(am))))
  }

  /** The end of an otherwise successful rewrite, and then a complete flush. */
  function Completion(rdb: bool, n: nat): seq<Action> {
    [RenameBase(rdb, true)] + ([PersistBase(true)] + ([SwitchBase] + ([EndDelete(false)] + ([WriteSome(n)] + []))))
  }

  function RewriteThenFlush(rdb: bool, n: nat): seq<Action> {
    [PersistIncr(true)] + ([SwitchIncr(true)] + ([ChildWrites] + Completion(rdb, n)))
  }

  /**
   If commands are still in the buffer when the rewrite starts, the snapshot
   already holds their effects and the new file logs them again: once the
   rewrite is over and the buffer is written, loading runs them twice.
   */
  lemma UndrainedRunsTwice<D>(cfg: Config<D>, s: State<D>, rdb: bool, done: seq<Argv>, rest: seq<Argv>)
    requires ConfigOk(cfg)
    requires Inv(cfg, s) && s.up.Some? && s.up.value.phase.Idle? && s.up.value.child.NoChild?
    requires s.log == done + rest && s.up.value.buf == EncodeAll(rest) && LogOk(cfg.known, rest)
    requires var am1 := NewIncr(s.up.value.am, cfg.aofName);
             LinesFit(am1) && LinesFit(MarkRewritten(NewBase(am1.(dirty := false), cfg.aofName, rdb), true))
    ensures var s1 := StartUndrained(cfg, s);
            var acts := RewriteThenFlush(rdb, |s.up.value.buf|);
            && Possible(cfg, s1, acts)
            && LoadAll(cfg, RunActions(cfg, s1, acts).disk)
               == Some(Replay(cfg, cfg.empty, Commands(s) + Logged(rest)))
  {
    hide ConfigOk, LoadIncrs, LoadManifest, Replay, Attribute, EncodeAll, Sane, LinesFit, IncrName, BaseName, Print, LogOk, Encode;
    var v := s.up.value;
    var am1 := NewIncr(v.am, cfg.aofName);
    var c1 := am1.(dirty := false);
    var am2 := MarkRewritten(NewBase(c1, cfg.aofName, rdb), true);
    SaneNewIncr(v.am, cfg.aofName);
    PersistReads(cfg, s.disk, am1);
    SaneNewBase(c1, cfg.aofName, rdb);
    SaneMarkRewritten(NewBase(c1, cfg.aofName, rdb), true, cfg.aofName);
    PersistReads(cfg, s.disk, am2);
    LastIsOther(am2, cfg.aofName);
    var x := Last(am1.incr);
    assert am2.incr == [x];

    var s4 := Forked(s, am1, s.disk.files[x.name := Log("")]);
    SecondHalf(cfg, s4, rdb, |v.buf|);
    FirstHalf(cfg, s, Completion(rdb, |v.buf|));
    var disk := RunActions(cfg, s4, Completion(rdb, |v.buf|)).disk;
    assert disk.files[x.name] == Log(EncodeAll(rest)) by {
      assert "" + v.buf[..|v.buf|] == EncodeAll(rest);
    }
    hide Possible, RunActions, Forked;
    LoadOne(cfg, disk.files, x, v.data, rest);
    ReplaySplit(cfg, cfg.empty, Commands(s), Logged(rest));
  }

  /** The state in which the child has written its snapshot of a server that did not drain its buffer. */
  function Forked<D>(s: State<D>, am: Manifest, files: map<string, File<D>>): State<D>
    requires s.up.Some? && ByteNames(Entries(am))
  {
    var v := s.up.value;
    State(Disk(files, Print(am)),
          Some(Server(am.(dirty := false), v.buf, -1, v.data, Child(v.data, true), Idle)),
          Commands(s),
          [])
  }

  lemma FirstHalf<D>(cfg: Config<D>, s: State<D>, tail: seq<Action>)
    requires s.up.Some? && s.up.value.child.NoChild?
    requires var am := NewIncr(s.up.value.am, cfg.aofName);
             ByteNames(Entries(am))
             && Possible(cfg, Forked(s, am, s.disk.files[Last(am.incr).name := Log("")]), tail)
    ensures var am := NewIncr(s.up.value.am, cfg.aofName);
            var s1 := StartUndrained(cfg, s);
            var acts := [PersistIncr(true)] + ([SwitchIncr(true)] + ([ChildWrites] + tail));
            && Possible(cfg, s1, acts)
            && RunActions(cfg, s1, acts)
               == RunActions(cfg, Forked(s, am, s.disk.files[Last(am.incr).name := Log("")]), tail)
  {
    hide Possible, RunActions, Print, IncrName, Attribute;
    var s1 := StartUndrained(cfg, s);
    var s2 := Step(cfg, s1, PersistIncr(true));
    var s3 := Step(cfg, s2, SwitchIncr(true));
    UnrollRun(cfg, s3, ChildWrites, tail);
    UnrollRun(cfg, s2, SwitchIncr(true), [ChildWrites] + tail);
    UnrollRun(cfg, s1, PersistIncr(true), [SwitchIncr(true)] + ([ChildWrites] + tail));
  }

  lemma SecondHalf<D>(cfg: Config<D>, s4: State<D>, rdb: bool, n: nat)
    requires s4.up.Some?
    requires var v := s4.up.value;
             v.phase.Idle? && v.child.Child? && v.child.written && n <= |v.buf|
             && v.am.incr != [] && HasLast(s4.disk.files, v.am)
    requires var am := MarkRewritten(NewBase(s4.up.value.am, cfg.aofName, rdb), true);
             LinesFit(am) && ByteNames(Entries(am)) && am.base.value.name != Last(am.incr).name
    ensures Possible(cfg, s4, Completion(rdb, n))
    ensures var v := s4.up.value;
            var am := MarkRewritten(NewBase(v.am, cfg.aofName, rdb), true);
            var x := Last(v.am.incr).name;
            var disk := RunActions(cfg, s4, Completion(rdb, n)).disk;
            && disk.manifest == Print(am)
            && disk.files == s4.disk.files[am.base.value.name := Snapshot(v.child.snapshot)]
                             [x := Log(s4.disk.files[x].bytes + v.buf[..n])]
  {
    hide Possible, RunActions, Print, BaseName, Attribute, LinesFit;
    var s8 := Rewritten(cfg, s4, rdb);
    assert Enabled(cfg, s8, WriteSome(n));
    PossibleNothing(cfg, Step(cfg, s8, WriteSome(n)));
    UnrollRun(cfg, s8, WriteSome(n), []);
    hide Enabled, Step;
    RewriteEnds(cfg, s4, rdb, [WriteSome(n)] + []);
  }

  /** The state after a rewrite whose child has written its snapshot. */
  function Rewritten<D>(cfg: Config<D>, s: State<D>, rdb: bool): State<D>
    requires s.up.Some? && s.up.value.child.Child?
    requires ByteNames(Entries(MarkRewritten(NewBase(s.up.value.am, cfg.aofName, rdb), true)))
  {
    var v := s.up.value;
    var am := MarkRewritten(NewBase(v.am, cfg.aofName, rdb), true);
    s.(disk := Disk(s.disk.files[BaseName(cfg.aofName, v.am.currBaseSeq + 1, rdb) := Snapshot(v.child.snapshot)], Print(am)),
       up := Some(v.(am := am.(dirty := false), child := NoChild, phase := Idle)))
  }

  lemma RewriteEnds<D>(cfg: Config<D>, s4: State<D>, rdb: bool, tail: seq<Action>)
    requires s4.up.Some?
    requires var v := s4.up.value; v.phase.Idle? && v.child.Child? && v.child.written
    requires var am := MarkRewritten(NewBase(s4.up.value.am, cfg.aofName, rdb), true);
             LinesFit(am) && ByteNames(Entries(am)) && Possible(cfg, Rewritten(cfg, s4, rdb), tail)
    ensures var acts := [RenameBase(rdb, true)] + ([PersistBase(true)] + ([SwitchBase] + ([EndDelete(false)] + tail)));
            && Possible(cfg, s4, acts)
            && RunActions(cfg, s4, acts) == RunActions(cfg, Rewritten(cfg, s4, rdb), tail)
  {
    hide Possible, RunActions, Print, BaseName, Attribute, LinesFit, MarkRewritten;
    var s5 := Step(cfg, s4, RenameBase(rdb, true));
    var s6 := Step(cfg, s5, PersistBase(true));
    var s7 := Step(cfg, s6, SwitchBase);
    assert Step(cfg, s7, EndDelete(false)) == Rewritten(cfg, s4, rdb);
    UnrollRun(cfg, s7, EndDelete(false), tail);
    var t6 := [EndDelete(false)] + tail;
    UnrollRun(cfg, s6, SwitchBase, t6);
    var t5 := [SwitchBase] + t6;
    UnrollRun(cfg, s5, PersistBase(true), t5);
    UnrollRun(cfg, s4, RenameBase(rdb, true), [PersistBase(true)] + t5);
  }

  lemma PossibleNothing<D>(cfg: Config<D>, s: State<D>)
    ensures Possible(cfg, s, []) && RunActions(cfg, s, []) == s
  {
  }

  lemma UnrollRun<D>(cfg: Config<D>, s: State<D>, a: Action, acts: seq<Action>)
    requires Enabled(cfg, s, a) && Possible(cfg, Step(cfg, s, a), acts)
    ensures Possible(cfg, s, [a] + acts)
    ensures RunActions(cfg, s, [a] + acts) == RunActions(cfg, Step(cfg, s, a), acts)
  {
    hide Enabled, Step;
    assert ([a] + acts)[1..] == acts;
  }
}
