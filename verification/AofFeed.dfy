/**
 Feeding commands into the AOF buffer (aof.c): the SELECT commands that are
 interleaved, and the proof that a loaded log runs every command in the
 database it was fed with.
 */
module AofFeed {
  import opened Sds
  import opened Manifest
  import opened AofLog
  import opened AofRecovery

  // ----- which database a logged command runs in -----

  /** A command fed with a database number, or -1 for one that belongs to no database. */
  datatype Fed = Fed(dictid: int, argv: Argv)

  function SelectCommand(db: nat): Argv {
    ["SELECT", Dec(db)]
  }

  /** feedAppendOnlyFile: the commands written for one fed command. */
  function FeedOne(selected: int, f: Fed): seq<Argv> {
    if f.dictid >= 0 && f.dictid != selected then [SelectCommand(f.dictid), f.argv] else [f.argv]
  }

  function SelectedAfter(selected: int, f: Fed): int {
    if f.dictid >= 0 then f.dictid else selected
  }

  function FeedAll(selected: int, fs: seq<Fed>): seq<Argv>
    decreases |fs|
  {
    if fs == [] then [] else FeedOne(selected, fs[0]) + FeedAll(SelectedAfter(selected, fs[0]), fs[1..])
  }

  function SelectedAfterAll(selected: int, fs: seq<Fed>): int
    decreases |fs|
  {
    if fs == [] then selected else SelectedAfterAll(SelectedAfter(selected, fs[0]), fs[1..])
  }

  /** A command together with the database the loader's client runs it in. */
  datatype DbCmd = DbCmd(db: int, argv: Argv)

  function DbAfter(db: int, argv: Argv): int {
    if IsSelect(argv) then Atoll(argv[1]) else db
  }

  /** The effects of a replayed sequence: SELECT only moves the client. */
  function Attribute(db: int, cmds: seq<Argv>): seq<DbCmd>
    decreases |cmds|
  {
    if cmds == [] then []
    else (if IsSelect(cmds[0]) then [] else [DbCmd(db, cmds[0])]) + Attribute(DbAfter(db, cmds[0]), cmds[1..])
  }

  function DbAfterAll(db: int, cmds: seq<Argv>): int
    decreases |cmds|
  {
    if cmds == [] then db else DbAfterAll(DbAfter(db, cmds[0]), cmds[1..])
  }

  lemma {:induction false} AttributeSplit(db: int, a: seq<Argv>, b: seq<Argv>)
    ensures Attribute(db, a + b) == Attribute(db, a) + Attribute(DbAfterAll(db, a), b)
    ensures DbAfterAll(db, a + b) == DbAfterAll(DbAfterAll(db, a), b)
    decreases |a|
  {
    hide IsSelect, DbAfter;
    if a == [] {
      assert a + b == b;
    } else {
      assert (a + b)[1..] == a[1..] + b;
      AttributeSplit(DbAfter(db, a[0]), a[1..], b);
    }
  }

  lemma SelectIsSelect(db: nat)
    ensures IsSelect(SelectCommand(db))
    ensures DbAfter(0, SelectCommand(db)) == db
    ensures !IsMulti(SelectCommand(db)) && !IsExec(SelectCommand(db))
  {
    assert ToLower("SELECT") == "select";
    AtollDec(db, "");
    assert Dec(db) + "" == Dec(db);
  }

  /** The SELECT that feedAppendOnlyFile formats by hand is the encoding of that command. */
  lemma SelectText(db: nat)
    ensures "*2\r\n$6\r\nSELECT\r\n$" + Dec(|Dec(db)|) + "\r\n" + Dec(db) + "\r\n" == Encode(SelectCommand(db))
  {
    hide Dec, Header, EncodeArg;
    var d := Dec(db);
    var s := SelectCommand(db);
    SelectParts();
    ArgText(d);
    assert s[1..] == [d] && s[1..][1..] == [];
    assert EncodeArgs(s[1..]) == EncodeArg(d) + EncodeArgs([]);
    assert EncodeArgs(s) == EncodeArg("SELECT") + EncodeArg(d);
    Reassociate(Header(2), EncodeArg("SELECT"), Dec(|d|), d);
  }

  lemma SelectParts()
    ensures Header(2) + EncodeArg("SELECT") + "$" == "*2\r\n$6\r\nSELECT\r\n$"
  {
    assert Dec(2) == "2" && Dec(6) == "6";
  }

  lemma Reassociate(a: string, b: string, l: string, d: string)
    ensures a + (b + ("$" + l + "\r\n" + d + "\r\n")) == a + b + "$" + l + "\r\n" + d + "\r\n"
  {
  }

  lemma ArgText(d: string)
    ensures EncodeArg(d) == "$" + Dec(|d|) + "\r\n" + d + "\r\n"
  {
  }

  /** One executed command is the fed one, in the database it was fed with. */
  predicate Replays(c: DbCmd, f: Fed) {
    c.argv == f.argv && (f.dictid >= 0 ==> c.db == f.dictid)
  }

  predicate ReplaysAll(cs: seq<DbCmd>, fs: seq<Fed>) {
    |cs| == |fs| && forall i :: 0 <= i < |fs| ==> Replays(cs[i], fs[i])
  }

  lemma FeedOneReplays(selected: int, db: int, f: Fed)
    requires selected == -1 || selected == db
    requires !IsSelect(f.argv)
    ensures var cs := Attribute(db, FeedOne(selected, f)); |cs| == 1 && Replays(cs[0], f)
    ensures var sel := SelectedAfter(selected, f); sel < 0 || sel == DbAfterAll(db, FeedOne(selected, f))
    ensures f.dictid < 0 ==> DbAfterAll(db, FeedOne(selected, f)) == db
    ensures f.dictid >= 0 ==> DbAfterAll(db, FeedOne(selected, f)) == f.dictid
  {
    hide IsSelect;
    if f.dictid >= 0 && f.dictid != selected {
      var s := SelectCommand(f.dictid);
      SelectIsSelect(f.dictid);
      assert [s, f.argv][1..] == [f.argv];
      assert [f.argv][1..] == [];
      assert DbAfter(db, s) == f.dictid;
      assert Attribute(f.dictid, [f.argv]) == [DbCmd(f.dictid, f.argv)];
      assert Attribute(db, [s, f.argv]) == [] + Attribute(f.dictid, [f.argv]);
      assert DbAfterAll(f.dictid, [f.argv]) == f.dictid;
      assert DbAfterAll(db, [s, f.argv]) == DbAfterAll(f.dictid, [f.argv]);
    } else {
      assert [f.argv][1..] == [];
    }
  }

  /** Whatever is fed, each command is replayed in the database it was fed with. */
  lemma {:induction false} FeedReplays(selected: int, db: int, fs: seq<Fed>)
    requires selected == -1 || selected == db
    requires forall i :: 0 <= i < |fs| ==> !IsSelect(fs[i].argv) && fs[i].dictid >= -1
    ensures ReplaysAll(Attribute(db, FeedAll(selected, fs)), fs)
    ensures selected >= -1 ==> SelectedAfterAll(selected, fs) == -1
                               || SelectedAfterAll(selected, fs) == DbAfterAll(db, FeedAll(selected, fs))
    decreases |fs|
  {
    hide IsSelect, FeedOne;
    if fs != [] {
      var one := FeedOne(selected, fs[0]);
      FeedOneReplays(selected, db, fs[0]);
      var sel, db' := SelectedAfter(selected, fs[0]), DbAfterAll(db, one);
      FeedReplays(sel, db', fs[1..]);
      AttributeSplit(db, one, FeedAll(sel, fs[1..]));
      var cs := Attribute(db', FeedAll(sel, fs[1..]));
      assert Attribute(db, FeedAll(selected, fs)) == Attribute(db, one) + cs;
      forall i | 0 <= i < |fs|
        ensures Replays((Attribute(db, one) + cs)[i], fs[i])
      {
        if i > 0 {
          assert Replays(cs[i - 1], fs[1..][i - 1]);
        }
      }
    }
  }

  /** The commands of a log other than MULTI and EXEC. */
  function Effects(cmds: seq<Argv>): seq<Argv>
    decreases |cmds|
  {
    if cmds == [] then []
    else (if Plain(cmds[0]) then [cmds[0]] else []) + Effects(cmds[1..])
  }

  /** A log whose transactions are all closed executes every other command, in order. */
  lemma {:induction false} ClosedExecutes(c: Client, cmds: seq<Argv>)
    requires WellNested(c.multi, cmds) && !EndsOpen(c.multi, cmds)
    requires !c.multi ==> c.queued == []
    ensures RunClient(c, cmds).executed == c.executed + c.queued + Effects(cmds)
    decreases |cmds|
  {
    hide IsMulti, IsExec, RunCommand, WellNested, EndsOpen, Plain;
    if cmds == [] {
      assert c.multi == EndsOpen(c.multi, []) by { NothingOpen(c.multi); }
    } else {
      var c' := RunCommand(c, cmds[0]);
      ExecutesOne(c, cmds);
      ClosedExecutes(c', cmds[1..]);
      var one := if Plain(cmds[0]) then [cmds[0]] else [];
      assert c.executed + c.queued + one + Effects(cmds[1..]) == c.executed + c.queued + (one + Effects(cmds[1..]));
    }
  }

  lemma NothingOpen(open: bool)
    ensures EndsOpen(open, []) == open
  {
  }

  /** One command of a closed log: executed, queued, or neither for MULTI and EXEC. */
  lemma ExecutesOne(c: Client, cmds: seq<Argv>)
    requires cmds != [] && WellNested(c.multi, cmds) && !EndsOpen(c.multi, cmds)
    requires !c.multi ==> c.queued == []
    ensures var c' := RunCommand(c, cmds[0]);
            && WellNested(c'.multi, cmds[1..]) && !EndsOpen(c'.multi, cmds[1..])
            && (!c'.multi ==> c'.queued == [])
            && c'.executed + c'.queued == c.executed + c.queued + if Plain(cmds[0]) then [cmds[0]] else []
  {
    hide IsMulti, IsExec;
    NotBoth(cmds[0]);
  }

  /** The fed commands other than MULTI and EXEC. */
  function FedEffects(fs: seq<Fed>): seq<Fed>
    decreases |fs|
  {
    if fs == [] then []
    else (if Plain(fs[0].argv) then [fs[0]] else []) + FedEffects(fs[1..])
  }

  predicate FedOk(f: Fed) {
    // MULTI and EXEC are fed without a database
    f.dictid >= -1 && !IsSelect(f.argv) && (!Plain(f.argv) ==> f.dictid == -1)
  }

  lemma {:induction false} EffectsSplit(a: seq<Argv>, b: seq<Argv>)
    ensures Effects(a + b) == Effects(a) + Effects(b)
    decreases |a|
  {
    hide Plain;
    if a == [] {
      assert a + b == b;
    } else {
      assert (a + b)[1..] == a[1..] + b;
      EffectsSplit(a[1..], b);
    }
  }

  /** Dropping MULTI and EXEC commutes with feeding. */
  lemma {:induction false} EffectsOfFeed(selected: int, fs: seq<Fed>)
    requires forall i :: 0 <= i < |fs| ==> FedOk(fs[i])
    ensures Effects(FeedAll(selected, fs)) == FeedAll(selected, FedEffects(fs))
    decreases |fs|
  {
    hide Plain, IsSelect;
    if fs != [] {
      var f := fs[0];
      assert FedOk(f);
      var sel := SelectedAfter(selected, f);
      EffectsOfFeed(sel, fs[1..]);
      EffectsSplit(FeedOne(selected, f), FeedAll(sel, fs[1..]));
      EffectsOfOne(selected, f);
      if Plain(f.argv) {
        var es := FedEffects(fs[1..]);
        assert ([f] + es)[1..] == es;
      } else {
        assert FedEffects(fs) == FedEffects(fs[1..]);
        assert sel == selected;
      }
    }
  }

  lemma EffectsOfOne(selected: int, f: Fed)
    requires FedOk(f)
    ensures Effects(FeedOne(selected, f)) == if Plain(f.argv) then FeedOne(selected, f) else []
  {
    hide IsSelect;
    if f.dictid >= 0 && f.dictid != selected {
      var s := SelectCommand(f.dictid);
      SelectIsSelect(f.dictid);
      hide Plain;
      assert Plain(s);
      assert [s, f.argv][1..] == [f.argv];
      assert [f.argv][1..] == [];
      assert Effects([f.argv]) == [f.argv] + [];
    } else {
      hide Plain;
      assert [f.argv][1..] == [];
    }
  }

  /**
   The round trip of the log: loading what any sequence of commands was
   written as executes them all, in order, each in the database it was fed
   with. Transactions must be complete.
   */
  lemma FedLogReplays(known: Argv -> bool, fs: seq<Fed>)
    requires forall i :: 0 <= i < |fs| ==> FedOk(fs[i])
    requires var log := FeedAll(-1, fs); Loggable(known, log) && WellNested(false, log) && !EndsOpen(false, log)
    ensures var o := LoadFile(known, true, EncodeAll(FeedAll(-1, fs)));
            ReplaysAll(Attribute(0, o.st.client.executed), FedEffects(fs))
  {
    hide LoadFile, RunClient, WellNested, EndsOpen, Plain, IsSelect;
    var log := FeedAll(-1, fs);
    LoadWhole(known, log);
    ClosedExecutes(FRESH, log);
    assert [] + [] + Effects(log) == Effects(log);
    EffectsOfFeed(-1, fs);
    FedEffectsOk(fs);
    FeedReplays(-1, 0, FedEffects(fs));
  }

  lemma {:induction false} FedEffectsOk(fs: seq<Fed>)
    requires forall i :: 0 <= i < |fs| ==> FedOk(fs[i])
    ensures forall i :: 0 <= i < |FedEffects(fs)| ==> FedOk(FedEffects(fs)[i])
    decreases |fs|
  {
    hide Plain, IsSelect, FedOk;
    if fs != [] {
      assert FedOk(fs[0]);
      FedEffectsOk(fs[1..]);
    }
  }

  // ----- a log with transactions, cut or whole -----

  /** What a log does, command by command, each with its database. */
  function Logged(log: seq<Argv>): seq<DbCmd> {
    Attribute(0, Effects(log))
  }

  /** What loading the first `n` bytes of a log executes. */
  function Executed(log: seq<Argv>, n: nat): seq<Argv> {
    RunClient(FRESH, Kept(log, n)).executed
  }

  lemma EffectsPrefix(log: seq<Argv>, m: nat)
    requires m <= |log|
    ensures Effects(log[..m]) <= Effects(log)
  {
    hide Effects;
    EffectsSplit(log[..m], log[m..]);
    assert log[..m] + log[m..] == log;
  }

  lemma ClosedRuns(log: seq<Argv>)
    requires Closed(log)
    ensures RunClient(FRESH, log).executed == Effects(log)
  {
    hide RunClient, WellNested, EndsOpen, Effects;
    ClosedExecutes(FRESH, log);
    assert [] + [] + Effects(log) == Effects(log);
  }

  /** A cut log executes the effects of whole transactions, from the start on. */
  lemma ExecutedIsPrefix(log: seq<Argv>, n: nat)
    requires Closed(log)
    ensures Executed(log, n) <= Effects(log)
    ensures WellNested(false, Kept(log, n)) && Kept(log, n) <= log
    ensures EndsOpen(false, Kept(log, n)) == Torn(log, n)
    ensures !Torn(log, n) ==> Executed(log, n) == Effects(Kept(log, n))
    ensures n == |EncodeAll(log)| ==> Executed(log, n) == Effects(log) && !Torn(log, n) && Kept(log, n) == log
  {
    hide RunClient, WellNested, EndsOpen, Effects, CompleteCount, LastMulti;
    var kept := Kept(log, n);
    KeptOpen(log, n);
    KeptIsPrefix(log, n);
    EffectsPrefix(log, |kept|);
    assert log[..|kept|] == kept;
    if !Torn(log, n) {
      ClosedRuns(kept);
    } else {
      OpenExecuted(kept);
      OpenTail(false, kept);
      var m := LastMulti(kept);
      ClosedRuns(kept[..m]);
      EffectsPrefix(kept, m);
      assert Executed(log, n) == Effects(kept[..m]);
    }
    if n == |EncodeAll(log)| {
      AllComplete(log);
      assert log[..|log|] == log;
    }
  }

  lemma KeptIsPrefix(log: seq<Argv>, n: nat)
    ensures Kept(log, n) <= log
  {
    hide EndsOpen;
  }

  function Argvs(fs: seq<Fed>): seq<Argv>
    decreases |fs|
  {
    if fs == [] then [] else [fs[0].argv] + Argvs(fs[1..])
  }

  /** The SELECT commands in between open and close nothing. */
  lemma {:induction false} FeedNested(selected: int, fs: seq<Fed>, open: bool)
    requires WellNested(open, Argvs(fs))
    ensures WellNested(open, FeedAll(selected, fs)) && EndsOpen(open, FeedAll(selected, fs)) == EndsOpen(open, Argvs(fs))
    decreases |fs|
  {
    hide IsMulti, IsExec;
    if fs != [] {
      var f := fs[0];
      var one, rest := FeedOne(selected, f), FeedAll(SelectedAfter(selected, f), fs[1..]);
      assert Argvs(fs)[1..] == Argvs(fs[1..]);
      var open' := if IsMulti(f.argv) then true else if IsExec(f.argv) then false else open;
      FeedNested(SelectedAfter(selected, f), fs[1..], open');
      OneNested(selected, f, open);
      NestedConcat(open, one, rest);
    }
  }

  lemma OneNested(selected: int, f: Fed, open: bool)
    requires WellNested(open, [f.argv])
    ensures var one := FeedOne(selected, f);
            WellNested(open, one) && EndsOpen(open, one) == EndsOpen(open, [f.argv])
  {
    if f.dictid >= 0 && f.dictid != selected {
      var s := SelectCommand(f.dictid);
      SelectIsSelect(f.dictid);
      hide IsMulti, IsExec;
      assert [s, f.argv][1..] == [f.argv];
    }
  }

  /** What may be fed: a command that fits, known, and SELECT known where it is needed. */
  predicate Feedable(known: Argv -> bool, f: Fed) {
    && FedOk(f) && f.dictid < 0x8000_0000
    && Loggable(known, [f.argv])
    && (f.dictid >= 0 ==> known(SelectCommand(f.dictid)))
  }

  lemma {:induction false} FeedLoggable(known: Argv -> bool, selected: int, fs: seq<Fed>)
    requires forall i :: 0 <= i < |fs| ==> Feedable(known, fs[i])
    ensures Loggable(known, FeedAll(selected, fs))
    decreases |fs|
  {
    hide FedOk, IsSelect, SelectCommand, FitsC;
    if fs != [] {
      var f := fs[0];
      assert Feedable(known, f);
      FeedLoggable(known, SelectedAfter(selected, f), fs[1..]);
      assert [f.argv][0] == f.argv;
      if f.dictid >= 0 {
        SelectFits(f.dictid);
      }
    }
  }

  lemma SelectFits(db: nat)
    requires db < 0x8000_0000
    ensures SelectCommand(db) != [] && FitsC(SelectCommand(db))
  {
    DecFits(db);
  }

  /** Feeding more to a closed log. */
  lemma FeedMore(known: Argv -> bool, log: seq<Argv>, selected: int, fs: seq<Fed>)
    requires Loggable(known, log) && Closed(log)
    requires forall i :: 0 <= i < |fs| ==> Feedable(known, fs[i])
    requires Closed(Argvs(fs))
    ensures var all := log + FeedAll(selected, fs); Loggable(known, all) && Closed(all)
  {
    hide WellNested, EndsOpen, Feedable;
    FeedLoggable(known, selected, fs);
    FeedNested(selected, fs, false);
    NestedConcat(false, log, FeedAll(selected, fs));
  }

  /** And what it adds: the fed commands other than MULTI and EXEC, each in its database. */
  lemma FeedAdds(log: seq<Argv>, selected: int, fs: seq<Fed>) returns (cs: seq<DbCmd>)
    requires selected == -1 || (selected >= 0 && selected == DbAfterAll(0, Effects(log)))
    requires forall i :: 0 <= i < |fs| ==> FedOk(fs[i])
    ensures Logged(log + FeedAll(selected, fs)) == Logged(log) + cs && ReplaysAll(cs, FedEffects(fs))
    ensures var sel := SelectedAfterAll(selected, fs);
            sel == -1 || (sel >= 0 && sel == DbAfterAll(0, Effects(log + FeedAll(selected, fs))))
  {
    hide Effects, Attribute, DbAfterAll, FedOk, Plain;
    var added, es := FeedAll(selected, fs), FedEffects(fs);
    var db := DbAfterAll(0, Effects(log));
    EffectsSplit(log, added);
    EffectsOfFeed(selected, fs);
    AttributeSplit(0, Effects(log), FeedAll(selected, es));
    FedEffectsOk(fs);
    NoSelects(es);
    FeedReplays(selected, db, es);
    SelectedEffects(selected, fs);
    cs := Attribute(db, FeedAll(selected, es));
  }

  lemma NoSelects(fs: seq<Fed>)
    requires forall i :: 0 <= i < |fs| ==> FedOk(fs[i])
    ensures forall i :: 0 <= i < |fs| ==> !IsSelect(fs[i].argv) && fs[i].dictid >= -1
  {
  }

  /** MULTI and EXEC select no database. */
  lemma {:induction false} SelectedEffects(selected: int, fs: seq<Fed>)
    requires selected >= -1 && forall i :: 0 <= i < |fs| ==> FedOk(fs[i])
    ensures SelectedAfterAll(selected, fs) == SelectedAfterAll(selected, FedEffects(fs)) >= -1
    decreases |fs|
  {
    hide Plain, IsSelect;
    if fs != [] {
      assert FedOk(fs[0]);
      SelectedEffects(SelectedAfter(selected, fs[0]), fs[1..]);
      if Plain(fs[0].argv) {
        assert FedEffects(fs)[1..] == FedEffects(fs[1..]);
      } else {
        assert FedEffects(fs) == FedEffects(fs[1..]);
      }
    }
  }
}
