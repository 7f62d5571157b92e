/**
 Crash safety of the rewrite protocol: in every reachable state, whatever the
 manifest on disk names exists, and loading it gives the dataset of exactly
 the commands whose bytes are completely in the files.
 */
module AofCrashSafety {
  import opened Sds
  import opened Manifest
  import opened ManifestRuns
  import opened AofLog
  import opened AofRecovery
  import opened AofFeed
  import opened AofRewrite

  predicate ConfigOk<D>(cfg: Config<D>) {
    NameSurvives(cfg.aofName) && IsByteString(cfg.aofName)
  }

  /** The manifest that a server starting now would work with. */
  function OnDisk<D>(disk: Disk<D>): Manifest {
    var m := LoadManifest(disk.manifest);
    if m.Loaded? then m.am else EMPTY
  }

  predicate LogOk(known: Argv -> bool, log: seq<Argv>) {
    Loggable(known, log) && Closed(log)
  }

  /** All but the last incremental file. */
  function Front(infos: seq<Info>): seq<Info>
    requires infos != []
  {
    infos[..|infos| - 1]
  }

  ghost predicate HasBase<D>(files: map<string, File<D>>, am: Manifest) {
    am.base.Some? && am.base.value.name in files && files[am.base.value.name].Snapshot?
  }

  predicate HasLast<D>(files: map<string, File<D>>, am: Manifest) {
    am.incr != [] && Last(am.incr).name in files && files[Last(am.incr).name].Log?
  }

  /** The base and the closed incremental files hold `pre`, and the last file a prefix of `log`. */
  ghost predicate DiskInv<D>(cfg: Config<D>, disk: Disk<D>, am: Manifest, pre: seq<DbCmd>, log: seq<Argv>) {
    && LoadManifest(disk.manifest).Loaded?
    && am == OnDisk(disk)
    && Sane(am, cfg.aofName)
    && HasBase(disk.files, am)
    && HasLast(disk.files, am)
    && LoadIncrs(cfg, disk.files, Front(am.incr), disk.files[am.base.value.name].data, false)
       == Some(Replay(cfg, cfg.empty, pre))
    && LogOk(cfg.known, log)
    && disk.files[Last(am.incr).name].bytes <= EncodeAll(log)
  }

  /** The commands of `log` that are completely written, whole transactions only. */
  function Flushed<D>(disk: Disk<D>, am: Manifest, log: seq<Argv>): seq<Argv>
    requires HasLast(disk.files, am)
  {
    Executed(log, |disk.files[Last(am.incr).name].bytes|)
  }

  // ----- loading the incremental files -----

  /** The incremental files up to one more. */
  lemma {:induction false} LoadIncrsSnoc<D>(cfg: Config<D>, files: map<string, File<D>>, incr: seq<Info>, x: Info, d: D, lastOpen: bool)
    ensures LoadIncrs(cfg, files, incr + [x], d, lastOpen)
         == var r := LoadIncrs(cfg, files, incr, d, false);
            if r.None? then None else LoadIncrs(cfg, files, [x], r.value, lastOpen)
    decreases |incr|
  {
    hide LoadFile, Replay;
    if incr == [] {
      assert incr + [x] == [x];
    } else {
      var y := incr[0].name;
      assert (incr + [x])[1..] == incr[1..] + [x];
      if y in files && files[y].Log? {
        var o := LoadFile(cfg.known, true, files[y].bytes);
        LoadIncrsSnoc(cfg, files, incr[1..], x, Replay(cfg, d, Attribute(0, o.st.client.executed)), lastOpen);
      }
    }
  }

  ghost predicate SameFiles<D>(files: map<string, File<D>>, files': map<string, File<D>>, infos: seq<Info>) {
    forall i :: 0 <= i < |infos| ==>
      (infos[i].name in files <==> infos[i].name in files')
      && (infos[i].name in files ==> files[infos[i].name] == files'[infos[i].name])
  }

  lemma {:induction false} LoadIncrsFrame<D>(cfg: Config<D>, files: map<string, File<D>>, files': map<string, File<D>>, incr: seq<Info>, d: D, lastOpen: bool)
    requires SameFiles(files, files', incr)
    ensures LoadIncrs(cfg, files, incr, d, lastOpen) == LoadIncrs(cfg, files', incr, d, lastOpen)
    decreases |incr|
  {
    hide LoadFile, Replay;
    if incr != [] {
      var y := incr[0].name;
      if y in files && files[y].Log? {
        var o := LoadFile(cfg.known, true, files[y].bytes);
        LoadIncrsFrame(cfg, files, files', incr[1..], Replay(cfg, d, Attribute(0, o.st.client.executed)), lastOpen);
      }
    }
  }

  /** One file holding a prefix of a log. */
  lemma LoadOne<D>(cfg: Config<D>, files: map<string, File<D>>, x: Info, d: D, log: seq<Argv>)
    requires x.name in files && files[x.name].Log?
    requires LogOk(cfg.known, log)
    requires files[x.name].bytes <= EncodeAll(log)
    ensures var bytes := files[x.name].bytes;
            && LoadIncrs(cfg, files, [x], d, true) == Some(Replay(cfg, d, Attribute(0, Executed(log, |bytes|))))
            && LoadIncrs(cfg, files, [x], d, false)
               == (if AtRest(log, |bytes|)
                   then Some(Replay(cfg, d, Attribute(0, Executed(log, |bytes|)))) else None)
            && (bytes == EncodeAll(log) ==> LoadIncrs(cfg, files, [x], d, false) == Some(Replay(cfg, d, Logged(log))))
  {
    hide LoadFile, Replay, Attribute, Effects, WellNested, EndsOpen, RunClient, EncodeAll, Kept, Torn, AtRest, Loggable;
    var bytes := files[x.name].bytes;
    var n := |bytes|;
    assert bytes == EncodeAll(log)[..n];
    RecoverLog(cfg.known, log, n);
    var o := LoadFile(cfg.known, true, bytes);
    var d' := Replay(cfg, d, Attribute(0, o.st.client.executed));
    assert [x][1..] == [];
    assert LoadIncrs(cfg, files, [], d', true) == Some(d') == LoadIncrs(cfg, files, [], d', false);
    if n == 0 {
      NothingAtRest(log);
    }
    if bytes == EncodeAll(log) {
      ExecutedIsPrefix(log, n);
      WholeAtRest(log);
    }
  }

  lemma NothingAtRest(log: seq<Argv>)
    ensures AtRest(log, 0)
  {
    ZeroComplete(log);
    assert log[..0] == [];
  }

  lemma WholeAtRest(log: seq<Argv>)
    requires Closed(log)
    ensures AtRest(log, |EncodeAll(log)|)
  {
    hide WellNested, EndsOpen, EncodeAll;
    AllComplete(log);
    assert log[..|log|] == log;
  }

  /** What a server starting from this disk would load. */
  lemma LoadsFlushed<D>(cfg: Config<D>, disk: Disk<D>, am: Manifest, pre: seq<DbCmd>, log: seq<Argv>)
    requires DiskInv(cfg, disk, am, pre, log)
    ensures LoadAll(cfg, disk) == Some(Replay(cfg, cfg.empty, pre + Attribute(0, Flushed(disk, am, log))))
  {
    hide LoadFile, LoadIncrs, LoadManifest, Sane, Attribute, Replay;
    var d := disk.files[am.base.value.name].data;
    var x := Last(am.incr);
    assert Front(am.incr) + [x] == am.incr;
    LoadIncrsSnoc(cfg, disk.files, Front(am.incr), x, d, true);
    LoadOne(cfg, disk.files, x, Replay(cfg, cfg.empty, pre), log);
    ReplaySplit(cfg, cfg.empty, pre, Attribute(0, Flushed(disk, am, log)));
  }

  // ----- the invariant -----

  /** Two manifests that differ only in history and in the dirty flag. */
  predicate SameLive(a: Manifest, b: Manifest) {
    && a.base == b.base && a.incr == b.incr
    && a.currBaseSeq == b.currBaseSeq && a.currIncrSeq == b.currIncrSeq
  }

  ghost predicate PhaseInv<D>(cfg: Config<D>, s: State<D>, v: Server<D>, am: Manifest) {
    match v.phase
    case Idle => SameLive(v.am, am)
    case Deleting => SameLive(v.am, am)
    case IncrOpened(next) =>
      && SameLive(v.am, am) && v.buf == "" && v.selectedDb == -1
      && next == NewIncr(v.am, cfg.aofName) && LinesFit(next)
      && s.disk.files.Keys >= {Last(next.incr).name}
      && s.disk.files[Last(next.incr).name] == Log("")
    case IncrPersisted(next) => SameLive(next, am) && Sane(next, cfg.aofName) && s.log == []
    case BaseRenamed(next) =>
      && SameLive(v.am, am)
      && (next == MarkRewritten(NewBase(v.am, cfg.aofName, false), true)
          || next == MarkRewritten(NewBase(v.am, cfg.aofName, true), true))
      && LinesFit(next)
      && s.disk.files.Keys >= {next.base.value.name}
      && s.disk.files[next.base.value.name] == Snapshot(Replay(cfg, cfg.empty, s.pre))
    case BasePersisted(next) => SameLive(next, am) && Sane(next, cfg.aofName)
    case BaseAbandoned(next) =>
      && SameLive(v.am, am)
      && next.base.Some?
      && (next.base.value.name == BaseName(cfg.aofName, v.am.currBaseSeq + 1, false)
          || next.base.value.name == BaseName(cfg.aofName, v.am.currBaseSeq + 1, true))
  }

  ghost predicate ServerInv<D>(cfg: Config<D>, s: State<D>, v: Server<D>, am: Manifest) {
    && HasLast(s.disk.files, am)
    && s.disk.files[Last(am.incr).name].bytes + v.buf == EncodeAll(s.log)
    && v.data == Replay(cfg, cfg.empty, s.pre + Logged(s.log))
    && v.selectedDb >= -1 && (v.selectedDb == -1 || v.selectedDb == DbAfterAll(0, Effects(s.log)))
    && (v.child.Child? ==> v.phase.Idle? && v.child.snapshot == Replay(cfg, cfg.empty, s.pre))
    && Sane(v.am, cfg.aofName)
    && PhaseInv(cfg, s, v, am)
  }

  ghost predicate Inv<D>(cfg: Config<D>, s: State<D>) {
    var am := OnDisk(s.disk);
    && DiskInv(cfg, s.disk, am, s.pre, s.log)
    && (s.up.Some? ==> ServerInv(cfg, s, s.up.value, am))
  }

  // ----- steps that leave the named files alone -----

  /** Files changed or added under names that the manifest on disk does not use. */
  lemma DiskFrame<D>(cfg: Config<D>, disk: Disk<D>, files': map<string, File<D>>, am: Manifest, pre: seq<DbCmd>, log: seq<Argv>)
    requires DiskInv(cfg, disk, am, pre, log)
    requires am.base.value.name in files' && files'[am.base.value.name] == disk.files[am.base.value.name]
    requires SameFiles(disk.files, files', am.incr)
    ensures DiskInv(cfg, disk.(files := files'), am, pre, log)
    ensures files'[Last(am.incr).name] == disk.files[Last(am.incr).name]
  {
    hide LoadIncrs, LoadManifest, Sane, Replay, LogOk;
    LoadIncrsFrame(cfg, disk.files, files', Front(am.incr), disk.files[am.base.value.name].data, false);
  }

  /** A name outside the base and incremental files of a manifest. */
  predicate NotLive(name: string, am: Manifest) {
    && (am.base.Some? ==> am.base.value.name != name)
    && (forall i :: 0 <= i < |am.incr| ==> am.incr[i].name != name)
  }

  lemma FrameOne<D>(cfg: Config<D>, disk: Disk<D>, name: string, files': map<string, File<D>>, am: Manifest, pre: seq<DbCmd>, log: seq<Argv>)
    requires DiskInv(cfg, disk, am, pre, log)
    requires NotLive(name, am)
    requires forall k :: k != name ==> (k in files' <==> k in disk.files) && (k in disk.files ==> files'[k] == disk.files[k])
    ensures DiskInv(cfg, disk.(files := files'), am, pre, log)
    ensures HasLast(files', am) && files'[Last(am.incr).name] == disk.files[Last(am.incr).name]
  {
    hide LoadIncrs, LoadManifest, Sane, Replay, LogOk;
    DiskFrame(cfg, disk, files', am, pre, log);
  }

  lemma NextNotLive(am: Manifest, dm: Manifest, aofName: string, rdb: bool)
    requires Sane(am, aofName) && SameLive(am, dm)
    ensures NotLive(IncrName(aofName, am.currIncrSeq + 1), dm)
    ensures NotLive(BaseName(aofName, am.currBaseSeq + 1, rdb), dm)
  {
    hide IncrName, BaseName, Sane;
    var es := Entries(am);
    if am.base.Some? {
      assert es[0] == am.base.value;
      NextNamesFresh(am, aofName, rdb, 0);
    }
    forall i | 0 <= i < |am.incr|
      ensures am.incr[i].name != IncrName(aofName, am.currIncrSeq + 1)
      ensures am.incr[i].name != BaseName(aofName, am.currBaseSeq + 1, rdb)
    {
      var j := |es| - |am.incr| + i;
      assert es[j] == am.incr[i];
      NextNamesFresh(am, aofName, rdb, j);
    }
  }

  lemma HistoryNotLive(am: Manifest, dm: Manifest, aofName: string)
    requires Sane(am, aofName) && SameLive(am, dm) && am.history != []
    ensures NotLive(am.history[0].name, dm)
  {
    hide IncrName, BaseName, Sane;
    SaneDistinct(am, aofName);
    var es := Entries(am);
    var b := if am.base.Some? then 1 else 0;
    assert es[b] == am.history[0];
    assert am.base.Some? ==> es[0] == am.base.value;
    forall i | 0 <= i < |am.incr|
      ensures am.incr[i].name != am.history[0].name
    {
      assert es[b + |am.history| + i] == am.incr[i];
    }
  }

  // ----- one lemma for each kind of step -----

  lemma ExecInv<D>(cfg: Config<D>, s: State<D>, fs: seq<Fed>)
    requires Inv(cfg, s) && Enabled(cfg, s, Exec(fs))
    ensures Inv(cfg, Step(cfg, s, Exec(fs)))
  {
    hide LoadIncrs, LoadManifest, Sane, IsSelect, Encode, EncodeAll, Attribute, Replay, DbAfterAll, Effects, FeedAll, Closed, Loggable,
         Feedable, Plain, SelectedAfterAll, FedEffects;
    var v := s.up.value;
    var cmds := FeedAll(v.selectedDb, fs);
    EncodeAllSplit(s.log, cmds);
    FeedMore(cfg.known, s.log, v.selectedDb, fs);
    MayFeedAll(cfg, fs);
    var cs := FeedAdds(s.log, v.selectedDb, fs);
    assert s.pre + (Logged(s.log) + cs) == s.pre + Logged(s.log) + cs;
    ReplaySplit(cfg, cfg.empty, s.pre + Logged(s.log), cs);
    AllEffects(cfg, v.data, cs, FedEffects(fs));
    var bytes := s.disk.files[Last(OnDisk(s.disk).incr).name].bytes;
    assert bytes + (v.buf + EncodeAll(cmds)) == EncodeAll(s.log) + EncodeAll(cmds);
  }

  lemma MayFeedAll<D>(cfg: Config<D>, fs: seq<Fed>)
    requires MayRun(cfg, fs)
    ensures forall i :: 0 <= i < |fs| ==> FedOk(fs[i])
    ensures forall i :: 0 <= i < |FedEffects(fs)| ==> FedEffects(fs)[i].dictid < 0 ==> cfg.dbFree(FedEffects(fs)[i].argv)
  {
    hide IsMulti, IsExec, IsSelect, Closed, Loggable;
    forall i | 0 <= i < |fs| ensures FedOk(fs[i]) {
      assert Feedable(cfg.known, fs[i]);
    }
    FreeEffects(cfg, fs);
  }

  lemma {:induction false} FreeEffects<D>(cfg: Config<D>, fs: seq<Fed>)
    requires forall i :: 0 <= i < |fs| && fs[i].dictid < 0 && Plain(fs[i].argv) ==> cfg.dbFree(fs[i].argv)
    ensures forall i :: 0 <= i < |FedEffects(fs)| ==> FedEffects(fs)[i].dictid < 0 ==> cfg.dbFree(FedEffects(fs)[i].argv)
    decreases |fs|
  {
    hide Plain;
    if fs != [] {
      FreeEffects(cfg, fs[1..]);
    }
  }

  /** Replaying what was logged for commands does what the commands did. */
  lemma {:induction false} AllEffects<D>(cfg: Config<D>, d: D, cs: seq<DbCmd>, fs: seq<Fed>)
    requires ReplaysAll(cs, fs)
    requires forall i :: 0 <= i < |fs| ==> fs[i].dictid < 0 ==> cfg.dbFree(fs[i].argv)
    ensures Replay(cfg, d, cs) == EffectAll(cfg, d, fs)
    decreases |fs|
  {
    if fs != [] {
      assert Replays(cs[0], fs[0]);
      var d' := Effect(cfg, d, cs[0]);
      assert d' == Effect(cfg, d, DbCmd(fs[0].dictid, fs[0].argv)) by {
        assert fs[0].dictid >= 0 ==> cs[0] == DbCmd(fs[0].dictid, fs[0].argv);
      }
      assert forall i :: 0 <= i < |fs[1..]| ==> Replays(cs[1..][i], fs[1..][i]) by {
        forall i | 0 <= i < |fs[1..]| ensures Replays(cs[1..][i], fs[1..][i]) {
          assert Replays(cs[i + 1], fs[i + 1]);
        }
      }
      AllEffects(cfg, d', cs[1..], fs[1..]);
    }
  }

  lemma WriteInv<D>(cfg: Config<D>, s: State<D>, k: nat)
    requires Inv(cfg, s) && Enabled(cfg, s, WriteSome(k))
    ensures Inv(cfg, Step(cfg, s, WriteSome(k)))
  {
    hide LoadIncrs, LoadManifest, Replay, Attribute, EncodeAll, LogOk;
    var v, am := s.up.value, OnDisk(s.disk);
    var n := Last(am.incr).name;
    var bytes := s.disk.files[n].bytes;
    var files' := s.disk.files[n := Log(bytes + v.buf[..k])];
    assert bytes + v.buf[..k] + v.buf[k..] == bytes + v.buf;
    LastIsOther(am, cfg.aofName);
    hide Sane;
    LoadIncrsFrame(cfg, s.disk.files, files', Front(am.incr), s.disk.files[am.base.value.name].data, false);
  }

  /** The file being written is not the base or an earlier incremental file. */
  lemma LastIsOther(am: Manifest, aofName: string)
    requires Sane(am, aofName) && am.incr != [] && am.base.Some?
    ensures am.base.value.name != Last(am.incr).name
    ensures forall i :: 0 <= i < |am.incr| - 1 ==> am.incr[i].name != Last(am.incr).name
  {
    hide IncrName, BaseName, Sane;
    SaneDistinct(am, aofName);
    var es := Entries(am);
    assert es[0] == am.base.value;
    assert es[|es| - 1] == Last(am.incr);
    assert forall i :: 0 <= i < |am.incr| ==> am.incr[i] == es[1 + |am.history| + i];
  }

  lemma StartInv<D>(cfg: Config<D>, s: State<D>)
    requires Inv(cfg, s) && Enabled(cfg, s, StartRewrite)
    ensures Inv(cfg, Step(cfg, s, StartRewrite))
  {
    hide LoadIncrs, LoadManifest, Replay, Attribute, EncodeAll, LogOk, Sane, LinesFit, IncrName, BaseName;
    var v, am := s.up.value, OnDisk(s.disk);
    var n := IncrName(cfg.aofName, v.am.currIncrSeq + 1);
    NextNotLive(v.am, am, cfg.aofName, false);
    FrameOne(cfg, s.disk, n, s.disk.files[n := Log("")], am, s.pre, s.log);
  }

  /** A sane manifest that fits its lines is read back from the text persisted for it. */
  lemma PersistReads<D>(cfg: Config<D>, disk: Disk<D>, am: Manifest)
    requires ConfigOk(cfg)
    requires Sane(am, cfg.aofName) && LinesFit(am) && am.base.Some? && am.incr != []
    ensures ByteNames(Entries(am))
    ensures LoadManifest(Print(am)) == Loaded(am.(dirty := false))
    ensures Sane(am.(dirty := false), cfg.aofName)
  {
    SaneWellFormed(am, cfg.aofName);
    SaneEdit(am, Persist, cfg.aofName);
    hide Sane, LoadManifest, NameSurvives;
    ManifestRoundTrip(am);
  }

  lemma PersistIncrInv<D>(cfg: Config<D>, s: State<D>, ok: bool)
    requires ConfigOk(cfg)
    requires Inv(cfg, s) && Enabled(cfg, s, PersistIncr(ok))
    ensures Inv(cfg, Step(cfg, s, PersistIncr(ok)))
  {
    hide ConfigOk, LoadIncrs, LoadManifest, Replay, Attribute, EncodeAll, Sane, LinesFit, IncrName, BaseName, Print;
    if ok {
      var v, am := s.up.value, OnDisk(s.disk);
      var next := v.phase.next;
      SaneNewIncr(v.am, cfg.aofName);
      PersistReads(cfg, s.disk, next);
      var s' := Step(cfg, s, PersistIncr(ok));
      var am' := next.(dirty := false);
      var x, d := Last(am.incr), s.disk.files[am.base.value.name].data;
      assert Front(am'.incr) == am.incr == Front(am.incr) + [x];
      LoadIncrsSnoc(cfg, s.disk.files, Front(am.incr), x, d, false);
      assert s.disk.files[x.name].bytes + "" == s.disk.files[x.name].bytes;
      LoadOne(cfg, s.disk.files, x, Replay(cfg, cfg.empty, s.pre), s.log);
      ReplaySplit(cfg, cfg.empty, s.pre, Logged(s.log));
      NothingLogged(s'.pre);
      assert DiskInv(cfg, s'.disk, am', s'.pre, s'.log);
    }
  }

  lemma NothingLogged(pre: seq<DbCmd>)
    ensures EncodeAll([]) == "" && Attribute(0, []) == [] && Effects([]) == [] && Logged([]) == []
    ensures Closed([])
    ensures pre + Logged([]) == pre
  {
  }

  lemma SwitchIncrInv<D>(cfg: Config<D>, s: State<D>, forked: bool)
    requires Inv(cfg, s) && Enabled(cfg, s, SwitchIncr(forked))
    ensures Inv(cfg, Step(cfg, s, SwitchIncr(forked)))
  {
    hide LoadIncrs, LoadManifest, Replay, Attribute, EncodeAll, Sane, LinesFit, IncrName, BaseName, Print, LogOk;
    NothingLogged(s.pre);
  }

  lemma RenameBaseInv<D>(cfg: Config<D>, s: State<D>, rdb: bool, ok: bool)
    requires Inv(cfg, s) && Enabled(cfg, s, RenameBase(rdb, ok))
    ensures Inv(cfg, Step(cfg, s, RenameBase(rdb, ok)))
  {
    hide LoadIncrs, LoadManifest, Replay, Attribute, EncodeAll, Sane, LinesFit, IncrName, BaseName, Print, LogOk, AsHistory;
    if ok {
      var v, am := s.up.value, OnDisk(s.disk);
      var n := BaseName(cfg.aofName, v.am.currBaseSeq + 1, rdb);
      NextNotLive(v.am, am, cfg.aofName, rdb);
      FrameOne(cfg, s.disk, n, s.disk.files[n := Snapshot(v.child.snapshot)], am, s.pre, s.log);
    }
  }

  lemma PersistBaseInv<D>(cfg: Config<D>, s: State<D>, ok: bool)
    requires ConfigOk(cfg)
    requires Inv(cfg, s) && Enabled(cfg, s, PersistBase(ok))
    ensures Inv(cfg, Step(cfg, s, PersistBase(ok)))
  {
    hide ConfigOk, LoadIncrs, LoadManifest, Replay, Attribute, EncodeAll, Sane, LinesFit, IncrName, BaseName, Print, LogOk, AsHistory;
    if ok {
      var v, am := s.up.value, OnDisk(s.disk);
      var next := v.phase.next;
      var rdb := next == MarkRewritten(NewBase(v.am, cfg.aofName, true), true);
      SaneNewBase(v.am, cfg.aofName, rdb);
      SaneMarkRewritten(NewBase(v.am, cfg.aofName, rdb), true, cfg.aofName);
      PersistReads(cfg, s.disk, next);
      var s' := Step(cfg, s, PersistBase(ok));
      var am' := next.(dirty := false);
      assert am'.incr == [Last(am.incr)];
      assert Front(am'.incr) == [];
      NoIncrs(cfg, s'.disk.files, s'.disk.files[am'.base.value.name].data);
      assert DiskInv(cfg, s'.disk, am', s'.pre, s'.log);
    }
  }

  lemma NoIncrs<D>(cfg: Config<D>, files: map<string, File<D>>, d: D)
    ensures LoadIncrs(cfg, files, [], d, false) == Some(d)
  {
  }

  lemma AbandonInv<D>(cfg: Config<D>, s: State<D>)
    requires Inv(cfg, s) && Enabled(cfg, s, AbandonBase)
    ensures Inv(cfg, Step(cfg, s, AbandonBase))
  {
    hide LoadIncrs, LoadManifest, Replay, Attribute, EncodeAll, Sane, LinesFit, IncrName, BaseName, Print, LogOk;
    var v, am := s.up.value, OnDisk(s.disk);
    var n := v.phase.next.base.value.name;
    NextNotLive(v.am, am, cfg.aofName, false);
    NextNotLive(v.am, am, cfg.aofName, true);
    FrameOne(cfg, s.disk, n, s.disk.files - {n}, am, s.pre, s.log);
  }

  lemma DeleteInv<D>(cfg: Config<D>, s: State<D>, ok: bool)
    requires Inv(cfg, s) && Enabled(cfg, s, DeleteOne(ok))
    ensures Inv(cfg, Step(cfg, s, DeleteOne(ok)))
  {
    hide LoadIncrs, LoadManifest, Replay, Attribute, EncodeAll, Sane, LinesFit, IncrName, BaseName, Print, LogOk;
    var v, am := s.up.value, OnDisk(s.disk);
    var n := v.am.history[0].name;
    HistoryNotLive(v.am, am, cfg.aofName);
    SaneEdit(v.am, ForgetHistoryHead, cfg.aofName);
    FrameOne(cfg, s.disk, n, s.disk.files - {n}, am, s.pre, s.log);
  }

  lemma EndDeleteInv<D>(cfg: Config<D>, s: State<D>, ok: bool)
    requires ConfigOk(cfg)
    requires Inv(cfg, s) && Enabled(cfg, s, EndDelete(ok))
    ensures Inv(cfg, Step(cfg, s, EndDelete(ok)))
  {
    hide ConfigOk, LoadIncrs, LoadManifest, Replay, Attribute, EncodeAll, Sane, LinesFit, IncrName, BaseName, Print, LogOk;
    if ok {
      PersistReads(cfg, s.disk, s.up.value.am);
    }
  }

  lemma SmallStepInv<D>(cfg: Config<D>, s: State<D>, a: Action)
    requires Inv(cfg, s) && Enabled(cfg, s, a)
    requires a.ChildWrites? || a.ChildDies? || a.SwitchBase? || a.Crash?
    ensures Inv(cfg, Step(cfg, s, a))
  {
    hide LoadIncrs, LoadManifest, Replay, Attribute, EncodeAll, Sane, LinesFit, IncrName, BaseName, Print, LogOk;
  }

  /** A server that is down can load; it goes on as before exactly when the log is not torn. */
  lemma RestartInv<D>(cfg: Config<D>, s: State<D>)
    requires Inv(cfg, s) && s.up.None?
    ensures HasLast(s.disk.files, OnDisk(s.disk))
    ensures Enabled(cfg, s, Restart) <==> !Torn(s.log, |s.disk.files[Last(OnDisk(s.disk).incr).name].bytes|)
    ensures Enabled(cfg, s, Restart) ==> Inv(cfg, Step(cfg, s, Restart))
  {
    hide LoadIncrs, LoadManifest, Replay, Sane, LinesFit, IncrName, BaseName, Print, LoadFile, Attribute, EncodeAll, LoadAll, Loggable,
         Kept, Torn, WellNested, EndsOpen, Effects, RunClient;
    var am := OnDisk(s.disk);
    LoadsFlushed(cfg, s.disk, am, s.pre, s.log);
    var n := Last(am.incr).name;
    var bytes := s.disk.files[n].bytes;
    if !Torn(s.log, |bytes|) {
      assert bytes == EncodeAll(s.log)[..|bytes|];
      RecoverLog(cfg.known, s.log, |bytes|);
      ExecutedIsPrefix(s.log, |bytes|);
      var kept := Kept(s.log, |bytes|);
      var s' := Step(cfg, s, Restart);
      LastIsOther(am, cfg.aofName);
      LoadIncrsFrame(cfg, s.disk.files, s'.disk.files, Front(am.incr), s.disk.files[am.base.value.name].data, false);
      LogPrefixOk(cfg.known, s.log, kept);
      assert EncodeAll(kept) + "" == EncodeAll(kept);
    }
  }

  lemma LogPrefixOk(known: Argv -> bool, log: seq<Argv>, kept: seq<Argv>)
    requires Loggable(known, log) && kept <= log
    ensures Loggable(known, kept)
  {
  }

  /** Every step keeps the invariant. */
  lemma StepInv<D>(cfg: Config<D>, s: State<D>, a: Action)
    requires ConfigOk(cfg)
    requires Inv(cfg, s) && Enabled(cfg, s, a)
    ensures Inv(cfg, Step(cfg, s, a))
  {
    hide Inv, Enabled, Step, ConfigOk;
    match a
    case Exec(fs) => ExecInv(cfg, s, fs);
    case WriteSome(k) => WriteInv(cfg, s, k);
    case StartRewrite => StartInv(cfg, s);
    case PersistIncr(ok) => PersistIncrInv(cfg, s, ok);
    case SwitchIncr(forked) => SwitchIncrInv(cfg, s, forked);
    case RenameBase(rdb, ok) => RenameBaseInv(cfg, s, rdb, ok);
    case PersistBase(ok) => PersistBaseInv(cfg, s, ok);
    case AbandonBase => AbandonInv(cfg, s);
    case DeleteOne(ok) => DeleteInv(cfg, s, ok);
    case EndDelete(ok) => EndDeleteInv(cfg, s, ok);
    case Restart => RestartIsDown(cfg, s); RestartInv(cfg, s);
    case _ => SmallStepInv(cfg, s, a);
  }

  lemma RestartIsDown<D>(cfg: Config<D>, s: State<D>)
    requires Enabled(cfg, s, Restart)
    ensures s.up.None?
  {
  }

  // ----- runs -----

  /** The state after the very first start: an empty snapshot and an empty incremental file. */
  function Initial<D>(cfg: Config<D>, rdb: bool): State<D>
    requires ConfigOk(cfg)
  {
    var am := NewIncr(NewBase(EMPTY, cfg.aofName, rdb), cfg.aofName);
    InitialManifest(cfg, rdb);
    State(
      Disk(map[BaseName(cfg.aofName, 1, rdb) := Snapshot(cfg.empty), IncrName(cfg.aofName, 1) := Log("")], Print(am)),
      Some(Server(am.(dirty := false), "", -1, cfg.empty, NoChild, Idle)),
      [],
      [])
  }

  lemma InitialManifest<D>(cfg: Config<D>, rdb: bool)
    requires ConfigOk(cfg)
    ensures var am := NewIncr(NewBase(EMPTY, cfg.aofName, rdb), cfg.aofName);
            Sane(am, cfg.aofName) && ByteNames(Entries(am))
  {
    var am := NewIncr(NewBase(EMPTY, cfg.aofName, rdb), cfg.aofName);
    EditsSane(EMPTY, [], cfg.aofName);
    SaneNewBase(EMPTY, cfg.aofName, rdb);
    SaneNewIncr(NewBase(EMPTY, cfg.aofName, rdb), cfg.aofName);
    hide Sane, NameSurvives, BaseName, IncrName;
    var es := Entries(am);
    forall i | 0 <= i < |es|
      ensures IsByteString(es[i].name)
    {
      EntryBounds(am, cfg.aofName, i);
      NamedSurvives(es[i], cfg.aofName);
    }
  }

  lemma InitialInv<D>(cfg: Config<D>, rdb: bool)
    requires ConfigOk(cfg)
    requires LinesFit(NewIncr(NewBase(EMPTY, cfg.aofName, rdb), cfg.aofName))
    ensures Inv(cfg, Initial(cfg, rdb))
  {
    hide ConfigOk, LoadManifest, Sane, BaseName, IncrName, Print, LinesFit;
    var am := NewIncr(NewBase(EMPTY, cfg.aofName, rdb), cfg.aofName);
    InitialManifest(cfg, rdb);
    var s := Initial(cfg, rdb);
    PersistReads(cfg, s.disk, am);
    var am' := am.(dirty := false);
    LastIsOther(am', cfg.aofName);
    assert Front(am'.incr) == [];
    NothingLogged([]);
  }

  /** A run: a sequence of actions each enabled where it is taken. */
  predicate Possible<D>(cfg: Config<D>, s: State<D>, acts: seq<Action>)
    decreases |acts|
  {
    acts == [] || (Enabled(cfg, s, acts[0]) && Possible(cfg, Step(cfg, s, acts[0]), acts[1..]))
  }

  function RunActions<D>(cfg: Config<D>, s: State<D>, acts: seq<Action>): State<D>
    requires Possible(cfg, s, acts)
    decreases |acts|
  {
    if acts == [] then s else RunActions(cfg, Step(cfg, s, acts[0]), acts[1..])
  }

  lemma {:induction false} RunInv<D>(cfg: Config<D>, s: State<D>, acts: seq<Action>)
    requires ConfigOk(cfg)
    requires Inv(cfg, s) && Possible(cfg, s, acts)
    ensures Inv(cfg, RunActions(cfg, s, acts))
    decreases |acts|
  {
    hide Inv, Enabled, Step, ConfigOk;
    if acts != [] {
      StepInv(cfg, s, acts[0]);
      RunInv(cfg, Step(cfg, s, acts[0]), acts[1..]);
    }
  }

  /** Every base and incremental file that the manifest on disk names is there. */
  ghost predicate NamedFilesExist<D>(disk: Disk<D>) {
    var m := LoadManifest(disk.manifest);
    && m.Loaded?
    && (m.am.base.Some? ==> m.am.base.value.name in disk.files)
    && forall i :: 0 <= i < |m.am.incr| ==> m.am.incr[i].name in disk.files
  }

  lemma {:induction false} LoadedIncrsExist<D>(cfg: Config<D>, files: map<string, File<D>>, incr: seq<Info>, d: D, lastOpen: bool)
    requires LoadIncrs(cfg, files, incr, d, lastOpen).Some?
    ensures forall i :: 0 <= i < |incr| ==> incr[i].name in files
    decreases |incr|
  {
    hide LoadFile, Replay;
    if incr != [] {
      var o := LoadFile(cfg.known, true, files[incr[0].name].bytes);
      LoadedIncrsExist(cfg, files, incr[1..], Replay(cfg, d, Attribute(0, o.st.client.executed)), lastOpen);
    }
  }

  /** What the invariant says of one state. */
  lemma InvSafe<D>(cfg: Config<D>, s: State<D>)
    requires Inv(cfg, s)
    ensures NamedFilesExist(s.disk)
    ensures HasLast(s.disk.files, OnDisk(s.disk))
    ensures LoadAll(cfg, s.disk) == Some(Replay(cfg, cfg.empty, s.pre + Attribute(0, Flushed(s.disk, OnDisk(s.disk), s.log))))
  {
    hide LoadIncrs, Sane, Replay, Attribute, ServerInv, LoadManifest, LogOk;
    var am := OnDisk(s.disk);
    LoadsFlushed(cfg, s.disk, am, s.pre, s.log);
    LoadedIncrsExist(cfg, s.disk.files, Front(am.incr), s.disk.files[am.base.value.name].data, false);
    forall i | 0 <= i < |am.incr|
      ensures am.incr[i].name in s.disk.files
    {
      if i < |am.incr| - 1 {
        assert am.incr[i] == Front(am.incr)[i];
      }
    }
  }

  /** With an empty buffer nothing is missing from the disk. */
  lemma DrainedIsFlushed<D>(cfg: Config<D>, s: State<D>)
    requires Inv(cfg, s) && s.up.Some? && s.up.value.buf == ""
    ensures HasLast(s.disk.files, OnDisk(s.disk)) && Flushed(s.disk, OnDisk(s.disk), s.log) == Effects(s.log)
  {
    hide LoadIncrs, Sane, Replay, Attribute, PhaseInv, LoadManifest, EncodeAll, Executed, Effects;
    var bytes := s.disk.files[Last(OnDisk(s.disk).incr).name].bytes;
    assert bytes + "" == bytes;
    ExecutedIsPrefix(s.log, |bytes|);
  }

  /** All commands run so far that have not been lost in a crash. */
  function Commands<D>(s: State<D>): seq<DbCmd> {
    s.pre + Logged(s.log)
  }

  /**
   Crash safety. After any run of the server, with crashes and restarts at
   any point, the files named on disk exist; loading them gives the dataset
   of exactly the commands completely written, whole transactions only, which
   is the live dataset as soon as the buffer is empty; and a server that is
   down can start, and goes on as before exactly when the log was not cut
   inside a command of a transaction.
   */
  lemma CrashSafety<D>(cfg: Config<D>, rdb: bool, acts: seq<Action>)
    requires ConfigOk(cfg)
    requires LinesFit(NewIncr(NewBase(EMPTY, cfg.aofName, rdb), cfg.aofName))
    requires Possible(cfg, Initial(cfg, rdb), acts)
    ensures var s := RunActions(cfg, Initial(cfg, rdb), acts);
            var am := OnDisk(s.disk);
            && NamedFilesExist(s.disk)
            && HasLast(s.disk.files, am)
            && LoadAll(cfg, s.disk) == Some(Replay(cfg, cfg.empty, s.pre + Attribute(0, Flushed(s.disk, am, s.log))))
            && (s.up.Some? ==> s.up.value.data == Replay(cfg, cfg.empty, Commands(s)))
            && (s.up.Some? && s.up.value.buf == "" ==> LoadAll(cfg, s.disk) == Some(s.up.value.data))
            && (s.up.None? ==>
                  (Enabled(cfg, s, Restart) <==> !Torn(s.log, |s.disk.files[Last(am.incr).name].bytes|)))
  {
    hide ConfigOk, Enabled, Step, Replay, Attribute, LinesFit, PhaseInv, LoadManifest, DiskInv, LoadAll, NamedFilesExist;
    InitialInv(cfg, rdb);
    RunInv(cfg, Initial(cfg, rdb), acts);
    var s := RunActions(cfg, Initial(cfg, rdb), acts);
    InvSafe(cfg, s);
    if s.up.Some? && s.up.value.buf == "" {
      DrainedIsFlushed(cfg, s);
    }
    if s.up.None? {
      RestartInv(cfg, s);
    }
  }

  // ----- which commands those are -----

  /** A command run is added in the database it was fed with; a restart keeps what was written; nothing else matters. */
  lemma StepCommands<D>(cfg: Config<D>, s: State<D>, a: Action)
    requires Inv(cfg, s) && Enabled(cfg, s, a)
    ensures var s' := Step(cfg, s, a);
            match a
            case Exec(fs) => exists cs :: Commands(s') == Commands(s) + cs && ReplaysAll(cs, FedEffects(fs))
            case Restart => HasLast(s.disk.files, OnDisk(s.disk))
                            && Commands(s') == s.pre + Attribute(0, Flushed(s.disk, OnDisk(s.disk), s.log))
                            && Commands(s') <= Commands(s)
            case _ => Commands(s') == Commands(s)
  {
    hide Inv, LoadManifest, LoadIncrs, LoadFile, Logged, IsSelect, FeedAll, Print, EncodeAll, Attribute;
    if a.Exec? {
      ExecCommands(cfg, s, a.fs);
    } else if a.Restart? {
      RestartCommands(cfg, s);
    } else if a.PersistIncr? {
      NothingLogged(s.pre + Logged(s.log));
    }
  }

  lemma ExecCommands<D>(cfg: Config<D>, s: State<D>, fs: seq<Fed>)
    requires Inv(cfg, s) && Enabled(cfg, s, Exec(fs))
    ensures exists cs :: Commands(Step(cfg, s, Exec(fs))) == Commands(s) + cs && ReplaysAll(cs, FedEffects(fs))
  {
    hide LoadManifest, LoadIncrs, Logged, IsSelect, FeedAll, EncodeAll, DiskInv, PhaseInv, DbAfterAll, Effects, MayRun, FedEffects, ReplaysAll;
    MayFeedAll(cfg, fs);
    var cs := FeedAdds(s.log, s.up.value.selectedDb, fs);
    assert s.pre + (Logged(s.log) + cs) == s.pre + Logged(s.log) + cs;
    assert Commands(Step(cfg, s, Exec(fs))) == Commands(s) + cs;
  }

  lemma RestartCommands<D>(cfg: Config<D>, s: State<D>)
    requires Inv(cfg, s) && Enabled(cfg, s, Restart)
    ensures HasLast(s.disk.files, OnDisk(s.disk))
    ensures var s' := Step(cfg, s, Restart);
            && Commands(s') == s.pre + Attribute(0, Flushed(s.disk, OnDisk(s.disk), s.log))
            && Commands(s') <= Commands(s)
  {
    hide LoadManifest, LoadIncrs, LoadFile, Attribute, EncodeAll, Sane, Replay, LoadAll, Loggable, Kept, Torn, WellNested, EndsOpen,
         Effects, Executed;
    var am := OnDisk(s.disk);
    var bytes := s.disk.files[Last(am.incr).name].bytes;
    ExecutedIsPrefix(s.log, |bytes|);
    var done := Effects(Kept(s.log, |bytes|));
    var later := Effects(s.log)[|done|..];
    AttributeSplit(0, done, later);
    assert done + later == Effects(s.log);
  }

  function Feds(acts: seq<Action>): seq<Fed>
    decreases |acts|
  {
    if acts == [] then [] else (if acts[0].Exec? then FedEffects(acts[0].fs) else []) + Feds(acts[1..])
  }

  /** Over any run without a restart, the commands added are those run, in order, each in its database. */
  lemma {:induction false} RunCommands<D>(cfg: Config<D>, s: State<D>, acts: seq<Action>)
    requires ConfigOk(cfg)
    requires Inv(cfg, s) && Possible(cfg, s, acts)
    requires forall i :: 0 <= i < |acts| ==> !acts[i].Restart?
    ensures var all := Commands(RunActions(cfg, s, acts));
            Commands(s) <= all && ReplaysAll(all[|Commands(s)|..], Feds(acts))
    decreases |acts|
  {
    hide Inv, Enabled, Step, ConfigOk, Replays, Commands;
    if acts == [] {
      assert Commands(s)[|Commands(s)|..] == [];
    } else {
      var s1 := Step(cfg, s, acts[0]);
      StepInv(cfg, s, acts[0]);
      StepCommands(cfg, s, acts[0]);
      RunCommands(cfg, s1, acts[1..]);
      var all := Commands(RunActions(cfg, s, acts));
      var n, n1 := |Commands(s)|, |Commands(s1)|;
      var tail := all[n1..];
      if acts[0].Exec? {
        var cs :| Commands(s1) == Commands(s) + cs && ReplaysAll(cs, FedEffects(acts[0].fs));
        assert all[n..] == cs + tail;
        assert Feds(acts) == FedEffects(acts[0].fs) + Feds(acts[1..]);
      } else {
        assert Feds(acts) == Feds(acts[1..]);
      }
    }
  }
}
