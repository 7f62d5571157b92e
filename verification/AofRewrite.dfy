/**
 The background rewrite protocol of the append only file (aof.c) as a state
 machine over the server's memory and the AOF directory. Every change to the
 disk is a step of its own, and a crash may come between any two steps.

 `D` is the type of datasets, and a dataset changes by `apply`.
 */
module AofRewrite {
  import opened Sds
  import opened Manifest
  import opened ManifestRuns
  import opened AofLog
  import opened AofRecovery
  import opened AofFeed

  /** `dbFree` are the commands that do the same in every database; only they are fed without one. */
  datatype Config<!D> = Config(
    aofName: string,
    known: Argv -> bool,
    dbFree: Argv -> bool,
    apply: (D, DbCmd) -> D,
    empty: D)

  /** A base file holds a snapshot; an incremental file holds log bytes. */
  datatype File<D> = Snapshot(data: D) | Log(bytes: string)

  /** The AOF directory: its files, and the text of the manifest. */
  datatype Disk<D> = Disk(files: map<string, File<D>>, manifest: string)

  /** The rewriting child, with the dataset it forked with. */
  datatype Child<D> = NoChild | Child(snapshot: D, written: bool)

  /** Where the main thread stands inside a rewrite. */
  datatype Phase =
    | Idle
    | IncrOpened(next: Manifest)     // new incremental file created
    | IncrPersisted(next: Manifest)  // manifest with it on disk, server not switched
    | BaseRenamed(next: Manifest)    // child's file renamed to the new base
    | BasePersisted(next: Manifest)  // manifest with it on disk, server not switched
    | BaseAbandoned(next: Manifest)  // manifest not persisted, new base to be unlinked
    | Deleting                       // removing history files

  datatype Server<D> = Server(
    am: Manifest,
    buf: string,
    selectedDb: int,
    data: D,
    child: Child<D>,
    phase: Phase)

  /**
   The whole system. `pre` and `log` record what was executed: `pre` are the
   effects logged before the current incremental file, `log` the commands fed
   for it, whether already written or still in the buffer. A restart keeps of
   the log what recovery keeps in the file, and is left out where that is torn:
   a transaction cut inside a command, after which the log has no end.
   */
  datatype State<D> = State(disk: Disk<D>, up: Option<Server<D>>, pre: seq<DbCmd>, log: seq<Argv>)

  /** What one command does to a dataset. */
  function Effect<D>(cfg: Config<D>, d: D, c: DbCmd): D {
    cfg.apply(d, if cfg.dbFree(c.argv) then c.(db := -1) else c)
  }

  function Replay<D>(cfg: Config<D>, d: D, cs: seq<DbCmd>): D
    decreases |cs|
  {
    if cs == [] then d else Replay(cfg, Effect(cfg, d, cs[0]), cs[1..])
  }

  lemma {:induction false} ReplaySplit<D>(cfg: Config<D>, d: D, a: seq<DbCmd>, b: seq<DbCmd>)
    ensures Replay(cfg, d, a + b) == Replay(cfg, Replay(cfg, d, a), b)
    decreases |a|
  {
    if a == [] {
      assert a + b == b;
    } else {
      assert (a + b)[1..] == a[1..] + b;
      ReplaySplit(cfg, Effect(cfg, d, a[0]), a[1..], b);
    }
  }

  // ----- loading at server start -----

  predicate LoadsClean(status: Status, last: bool) {
    status == AofOk || status == AofEmpty || (status == AofTruncated && last)
  }

  /** The incremental files in order; only the very last file may be cut short. */
  function LoadIncrs<D>(cfg: Config<D>, files: map<string, File<D>>, incr: seq<Info>, d: D, lastOpen: bool): Option<D>
    decreases |incr|
  {
    if incr == [] then Some(d)
    else if incr[0].name !in files || files[incr[0].name].Snapshot? then None
    else
      var o := LoadFile(cfg.known, true, files[incr[0].name].bytes);
      if !LoadsClean(o.status, lastOpen && |incr| == 1) then None
      else LoadIncrs(cfg, files, incr[1..], Replay(cfg, d, Attribute(0, o.st.client.executed)), lastOpen)
  }

  /** loadAppendOnlyFiles on what the manifest on disk names. */
  function LoadAll<D>(cfg: Config<D>, disk: Disk<D>): Option<D> {
    var m := LoadManifest(disk.manifest);
    if m.Fatal? then None
    else if m.am.base.None? then LoadIncrs(cfg, disk.files, m.am.incr, cfg.empty, true)
    else
      var b := m.am.base.value.name;
      if b !in disk.files || disk.files[b].Log? then None
      else LoadIncrs(cfg, disk.files, m.am.incr, disk.files[b].data, true)
  }

  // ----- steps -----

  datatype Action =
    | Exec(fs: seq<Fed>)        // run commands, whole transactions, and feed them
    | WriteSome(k: nat)         // a flush gets k bytes of the buffer to the file
    | StartRewrite              // forced flush, then open the new incremental file
    | PersistIncr(ok: bool)
    | SwitchIncr(forked: bool)
    | ChildWrites
    | ChildDies
    | RenameBase(rdb: bool, ok: bool)
    | PersistBase(ok: bool)
    | AbandonBase
    | SwitchBase
    | DeleteOne(ok: bool)
    | EndDelete(ok: bool)
    | Crash
    | Restart

  function Last(infos: seq<Info>): Info
    requires infos != []
  {
    infos[|infos| - 1]
  }

  /** Commands outside transactions, and transactions with all their commands. */
  predicate MayRun<D>(cfg: Config<D>, fs: seq<Fed>) {
    && Closed(Argvs(fs))
    && (forall i :: 0 <= i < |fs| ==> Feedable(cfg.known, fs[i]))
    && (forall i :: 0 <= i < |fs| && fs[i].dictid < 0 && Plain(fs[i].argv) ==> cfg.dbFree(fs[i].argv))
  }

  /** What running them does to the dataset: each command in its own database. */
  function EffectAll<D>(cfg: Config<D>, d: D, fs: seq<Fed>): D
    decreases |fs|
  {
    if fs == [] then d else EffectAll(cfg, Effect(cfg, d, DbCmd(fs[0].dictid, fs[0].argv)), fs[1..])
  }

  /** When a step can be taken. */
  predicate Enabled<D>(cfg: Config<D>, s: State<D>, a: Action) {
    if a.Restart? then s.up.None? && LoadManifest(s.disk.manifest).Loaded? && LoadAll(cfg, s.disk).Some?
                       && LoadManifest(s.disk.manifest).am.incr != []
                       && (var n := Last(LoadManifest(s.disk.manifest).am.incr).name;
                           n in s.disk.files && s.disk.files[n].Log? && !Torn(s.log, |s.disk.files[n].bytes|))
    else
      s.up.Some? &&
      var v := s.up.value;
      match a
      case Exec(fs) => v.phase.Idle? && MayRun(cfg, fs)
      case WriteSome(k) =>
        v.phase.Idle? && k <= |v.buf| && v.am.incr != []
        && Last(v.am.incr).name in s.disk.files && s.disk.files[Last(v.am.incr).name].Log?
      case StartRewrite => v.phase.Idle? && v.child.NoChild? && v.buf == "" && LinesFit(NewIncr(v.am, cfg.aofName))
      case PersistIncr(_) => v.phase.IncrOpened? && ByteNames(Entries(v.phase.next))
      case SwitchIncr(_) => v.phase.IncrPersisted?
      case ChildWrites => v.child.Child?
      case ChildDies => v.child.Child? && v.phase.Idle?
      case RenameBase(rdb, _) =>
        v.child.Child? && v.child.written && v.phase.Idle?
        && LinesFit(MarkRewritten(NewBase(v.am, cfg.aofName, rdb), true))
      case PersistBase(_) => v.phase.BaseRenamed? && ByteNames(Entries(v.phase.next))
      case AbandonBase => v.phase.BaseAbandoned? && v.phase.next.base.Some?
      case SwitchBase => v.phase.BasePersisted?
      case DeleteOne(_) => v.phase.Deleting? && v.am.history != []
      case EndDelete(ok) => v.phase.Deleting? && (ok ==> v.am.history == [] && LinesFit(v.am) && ByteNames(Entries(v.am)))
      case Crash => true
      case Restart => false
  }

  /** The commands are applied to the dataset and fed to the log. */
  function ExecStep<D>(cfg: Config<D>, s: State<D>, v: Server<D>, fs: seq<Fed>): State<D> {
    var cmds := FeedAll(v.selectedDb, fs);
    s.(up := Some(v.(
         buf := v.buf + EncodeAll(cmds),
         selectedDb := SelectedAfterAll(v.selectedDb, fs),
         data := EffectAll(cfg, v.data, FedEffects(fs)))),
       log := s.log + cmds)
  }

  function Step<D>(cfg: Config<D>, s: State<D>, a: Action): State<D>
    requires Enabled(cfg, s, a)
  {
    if a.Restart? then
      var am := LoadManifest(s.disk.manifest).am;
      var n := Last(am.incr).name;
      var bytes := s.disk.files[n].bytes;
      var o := LoadFile(cfg.known, true, bytes);
      State(s.disk.(files := s.disk.files[n := Log(FileAfter(bytes, o))]),
            Some(Server(am, "", -1, LoadAll(cfg, s.disk).value, NoChild, Deleting)),
            s.pre,
            Kept(s.log, |bytes|))
    else
      var v := s.up.value;
      var disk := s.disk;
      match a
      case Exec(fs) => ExecStep(cfg, s, v, fs)
      case WriteSome(k) =>
        var n := Last(v.am.incr).name;
        s.(disk := disk.(files := disk.files[n := Log(disk.files[n].bytes + v.buf[..k])]),
           up := Some(v.(buf := v.buf[k..])))
      case StartRewrite =>
        var am := NewIncr(v.am, cfg.aofName);
        s.(disk := disk.(files := disk.files[IncrName(cfg.aofName, am.currIncrSeq) := Log("")]),
           up := Some(v.(selectedDb := -1, phase := IncrOpened(am))))
      case PersistIncr(ok) =>
        if ok then
          State(disk.(manifest := Print(v.phase.next)),
                Some(v.(phase := IncrPersisted(v.phase.next.(dirty := false)))),
                s.pre + Logged(s.log),
                [])
        else s.(up := Some(v.(phase := Idle)))
      case SwitchIncr(forked) =>
        s.(up := Some(v.(am := v.phase.next,
                         child := if forked then Child(v.data, false) else NoChild,
                         phase := Idle)))
      case ChildWrites => s.(up := Some(v.(child := v.child.(written := true))))
      case ChildDies => s.(up := Some(v.(child := NoChild)))
      case RenameBase(rdb, ok) =>
        if ok then
          var am := MarkRewritten(NewBase(v.am, cfg.aofName, rdb), true);
          var n := BaseName(cfg.aofName, v.am.currBaseSeq + 1, rdb);
          s.(disk := disk.(files := disk.files[n := Snapshot(v.child.snapshot)]),
             up := Some(v.(child := NoChild, phase := BaseRenamed(am))))
        else s.(up := Some(v.(child := NoChild)))
      case PersistBase(ok) =>
        if ok then
          s.(disk := disk.(manifest := Print(v.phase.next)),
             up := Some(v.(phase := BasePersisted(v.phase.next.(dirty := false)))))
        else s.(up := Some(v.(phase := BaseAbandoned(v.phase.next))))
      case AbandonBase =>
        s.(disk := disk.(files := disk.files - {v.phase.next.base.value.name}),
           up := Some(v.(phase := Idle)))
      case SwitchBase => s.(up := Some(v.(am := v.phase.next, phase := Deleting)))
      case DeleteOne(ok) =>
        s.(disk := if ok then disk.(files := disk.files - {v.am.history[0].name}) else disk,
           up := Some(v.(am := v.am.(history := v.am.history[1..], dirty := true))))
      case EndDelete(ok) =>
        if ok then
          s.(disk := disk.(manifest := Print(v.am)), up := Some(v.(am := v.am.(dirty := false), phase := Idle)))
        else s.(up := Some(v.(phase := Idle)))
      case Crash => s.(up := None)
  }
}
