/**
 Loading what was fed: any byte prefix of a command log loads as its longest
 run of complete commands.
 */
module AofRecovery {
  import opened Sds
  import opened Manifest
  import opened AofLog

  // ----- printed numbers are short and do not start with a zero -----

  function Pow10(k: nat): nat {
    if k == 0 then 1 else 10 * Pow10(k - 1)
  }

  lemma {:induction false} DecShort(n: nat, k: nat)
    requires n < Pow10(k) && k >= 1
    ensures |Dec(n)| <= k
    decreases k
  {
    if n >= 10 {
      DecShort(n / 10, k - 1);
    }
  }

  lemma {:induction false} LeadingDigit(n: nat)
    requires n >= 1
    ensures Dec(n)[0] != '0'
    decreases n
  {
    if n >= 10 {
      LeadingDigit(n / 10);
    }
  }

  /** The sizes C can hold: an int argument count and a 64-bit length. */
  predicate FitsC(argv: Argv) {
    |argv| < 0x8000_0000 && forall i :: 0 <= i < |argv| ==> |argv[i]| < 0x8000_0000_0000_0000
  }

  lemma DecFits(n: nat)
    requires n < 0x8000_0000_0000_0000
    ensures |Dec(n)| <= 19
  {
    assert Pow10(19) == 10 * (10 * (10 * (10 * Pow10(15))));
    assert Pow10(15) == 10 * (10 * (10 * (10 * (10 * Pow10(10)))));
    assert Pow10(10) == 10 * (10 * (10 * (10 * (10 * Pow10(5)))));
    assert Pow10(5) == 10 * (10 * (10 * (10 * (10 * 1))));
    DecShort(n, 19);
  }

  // ----- lines -----

  predicate NoNewline(s: string) {
    forall i :: 0 <= i < |s| ==> s[i] != '\n'
  }

  lemma {:induction false} LineWithNewline(line: string, rest: string, max: nat)
    requires NoNewline(line) && |line| < max
    ensures LineLen(line + "\n" + rest, max) == |line| + 1
    decreases |line|
  {
    var s := line + "\n" + rest;
    if line != "" {
      assert s[0] == line[0];
      assert s[1..] == line[1..] + "\n" + rest;
      LineWithNewline(line[1..], rest, max - 1);
    }
  }

  lemma {:induction false} LineWithoutNewline(line: string, max: nat)
    requires NoNewline(line) && |line| <= max
    ensures LineLen(line, max) == |line|
    decreases |line|
  {
    if line != "" {
      LineWithoutNewline(line[1..], max - 1);
    }
  }

  /** A printed header line "c<n>\r\n" is read whole, and its number is read back. */
  lemma ReadHeader(c: char, n: nat, rest: string)
    requires n < 0x8000_0000_0000_0000 && c != '\n'
    ensures var r := [c] + Dec(n) + "\r\n" + rest;
            var k := |Dec(n)| + 3;
            && LineLen(r, AOF_ANNOTATION_LINE_MAX_LEN - 1) == k
            && r[0] == c && At(r[..k], 1) != '\0'
            && Atoll(r[1..k]) == n
            && r[k..] == rest
  {
    var d := Dec(n);
    var r := [c] + d + "\r\n" + rest;
    var line := [c] + d + "\r";
    DecFits(n);
    assert r == line + "\n" + rest;
    LineWithNewline(line, rest, AOF_ANNOTATION_LINE_MAX_LEN - 1);
    var k := |d| + 3;
    assert r[1..k] == d + "\r\n";
    AtollDec(n, "\r\n");
    assert r[..k][1] == d[0];
  }

  /** A header line cut before its newline. */
  lemma CutHeader(c: char, n: nat, cut: nat)
    requires n < 0x8000_0000_0000_0000 && c != '\n'
    requires 1 <= cut < |Dec(n)| + 3
    ensures var p := ([c] + Dec(n) + "\r\n")[..cut];
            && LineLen(p, AOF_ANNOTATION_LINE_MAX_LEN - 1) == cut
            && p[0] == c && p[cut - 1] != '\n'
            && Atoll(p[1..]) >= 0
            && (cut == 1 ==> At(p, 1) == '\0')
            && (cut > 1 && n >= 1 ==> At(p, 1) != '\0' && Atoll(p[1..]) >= 1)
  {
    var d := Dec(n);
    var s := [c] + d + "\r\n";
    var p := s[..cut];
    DecFits(n);
    assert forall i :: 1 <= i <= |d| ==> s[i] == d[i - 1];
    assert NoNewline(p);
    LineWithoutNewline(p, AOF_ANNOTATION_LINE_MAX_LEN - 1);
    if cut > 1 {
      var q := p[1..];
      assert q[0] == d[0];
      DigitsAtLeast(q, 0);
      if n >= 1 {
        LeadingDigit(n);
        assert ParseDigits(q, 0) == ParseDigits(q[1..], q[0] as int - '0' as int);
        DigitsAtLeast(q[1..], q[0] as int - '0' as int);
      }
    }
  }

  lemma {:induction false} DigitsAtLeast(s: string, acc: nat)
    ensures ParseDigits(s, acc) >= acc
    decreases |s|
  {
    if s != "" && IsDigit(s[0]) {
      DigitsAtLeast(s[1..], acc * 10 + (s[0] as int - '0' as int));
    }
  }

  // ----- complete and cut commands -----

  /** One whole argument header, and whatever data follows it. */
  lemma ReadArgsStep(len: nat, data: string, argc: nat)
    requires len < 0x8000_0000_0000_0000 && argc >= 1
    ensures ReadArgs(['$'] + Dec(len) + "\r\n" + data, argc)
         == if |data| < len + 2 then ArgsReadErr
            else
              var tail := ReadArgs(data[len + 2..], argc - 1);
              if tail.Args? then Args([data[..len]] + tail.argv, tail.rest) else tail
  {
    hide Dec, Atoll, LineLen;
    ReadHeader('$', len, data);
  }

  lemma {:induction false} ReadArgsWhole(argv: Argv, rest: string)
    requires FitsC(argv)
    ensures ReadArgs(EncodeArgs(argv) + rest, |argv|) == Args(argv, rest)
    decreases |argv|
  {
    hide Dec;
    if argv == [] {
      assert EncodeArgs(argv) + rest == rest;
    } else {
      hide ReadArgs;
      var a, tail := argv[0], EncodeArgs(argv[1..]) + rest;
      var data := a + "\r\n" + tail;
      assert EncodeArgs(argv) + rest == ['$'] + Dec(|a|) + "\r\n" + data;
      ReadArgsStep(|a|, data, |argv|);
      assert data[..|a|] == a && data[|a| + 2..] == tail;
      ReadArgsWhole(argv[1..], rest);
      assert [a] + argv[1..] == argv;
    }
  }

  lemma ReadCommandWhole(argv: Argv, rest: string)
    requires argv != [] && FitsC(argv)
    ensures ReadCommand(Encode(argv) + rest) == Command(argv, rest)
  {
    hide Dec, Atoll, LineLen, ReadArgs, EncodeArgs;
    var body := EncodeArgs(argv) + rest;
    var r := Encode(argv) + rest;
    assert r == ['*'] + Dec(|argv|) + "\r\n" + body;
    ReadHeader('*', |argv|, body);
    ReadArgsWhole(argv, rest);
  }

  /** Arguments cut anywhere make the reader meet the end of the file. */
  lemma {:induction false} ReadArgsCut(argv: Argv, cut: nat)
    requires FitsC(argv)
    requires cut < |EncodeArgs(argv)|
    ensures ReadArgs(EncodeArgs(argv)[..cut], |argv|) == ArgsReadErr
    decreases |argv|
  {
    hide Dec, ReadArgs;
    var p := EncodeArgs(argv)[..cut];
    if cut == 0 {
      assert p == "";
      ReadNothing(|argv|);
    } else {
      var a, tail := argv[0], EncodeArgs(argv[1..]);
      var head, body := ['$'] + Dec(|a|) + "\r\n", a + "\r\n" + tail;
      assert EncodeArgs(argv) == head + body;
      if cut < |head| {
        assert p == head[..cut];
        ReadCutHeader(|a|, cut, |argv|);
      } else {
        var data := body[..cut - |head|];
        assert p == head + data;
        ReadArgsStep(|a|, data, |argv|);
        if |data| >= |a| + 2 {
          var c := |data| - (|a| + 2);
          assert data[|a| + 2..] == tail[..c];
          ReadArgsCut(argv[1..], c);
        }
      }
    }
  }

  lemma ReadCutHeader(len: nat, cut: nat, argc: nat)
    requires len < 0x8000_0000_0000_0000 && argc >= 1
    requires 1 <= cut < |Dec(len)| + 3
    ensures ReadArgs((['$'] + Dec(len) + "\r\n")[..cut], argc) == ArgsReadErr
  {
    hide Dec, Atoll, LineLen;
    var p := (['$'] + Dec(len) + "\r\n")[..cut];
    CutHeader('$', len, cut);
    assert p[cut..] == "";
    assert p[1..cut] == p[1..];
  }

  lemma ReadCommandCut(argv: Argv, cut: nat)
    requires argv != [] && FitsC(argv)
    requires 0 < cut < |Encode(argv)|
    ensures ReadCommand(Encode(argv)[..cut]) == ReadErr(true)
  {
    hide Dec, Atoll, LineLen, EncodeArgs, ReadArgs;
    var p := Encode(argv)[..cut];
    var head := ['*'] + Dec(|argv|) + "\r\n";
    assert Encode(argv) == head + EncodeArgs(argv);
    if cut < |head| {
      assert p == head[..cut];
      CutHeader('*', |argv|, cut);
      assert p[..cut] == p;
      assert p[cut..] == "";
      assert p[1..cut] == p[1..];
      DecFits(|argv|);
      if cut > 1 {
        ReadNothing(Atoll(p[1..]));
      }
    } else {
      var c := cut - |head|;
      var body := EncodeArgs(argv)[..c];
      assert p == head + body;
      ReadHeader('*', |argv|, body);
      ReadArgsCut(argv, c);
    }
  }

  lemma ReadNothing(argc: nat)
    requires argc >= 1
    ensures ReadArgs("", argc) == ArgsReadErr
  {
  }

  // ----- a cut log -----

  predicate Loggable(known: Argv -> bool, cmds: seq<Argv>) {
    forall i :: 0 <= i < |cmds| ==> cmds[i] != [] && FitsC(cmds[i]) && known(cmds[i])
  }

  /** How many commands fit whole in the first `n` bytes of the log. */
  function CompleteCount(cmds: seq<Argv>, n: nat): (k: nat)
    ensures k <= |cmds|
    decreases |cmds|
  {
    if cmds == [] || n < |Encode(cmds[0])| then 0
    else 1 + CompleteCount(cmds[1..], n - |Encode(cmds[0])|)
  }

  /** It is the longest run of commands that fits. */
  lemma {:induction false} CompleteIsLongest(cmds: seq<Argv>, n: nat)
    requires n <= |EncodeAll(cmds)|
    ensures var k := CompleteCount(cmds, n);
            && |EncodeAll(cmds[..k])| <= n
            && EncodeAll(cmds)[..n][..|EncodeAll(cmds[..k])|] == EncodeAll(cmds[..k])
            && (k < |cmds| ==> n < |EncodeAll(cmds[..k + 1])|)
    decreases |cmds|
  {
    hide Encode;
    var k := CompleteCount(cmds, n);
    if cmds != [] {
      var e := Encode(cmds[0]);
      assert cmds[..1][1..] == [];
      assert EncodeAll(cmds[..1]) == e + "";
      if n >= |e| {
        CompleteIsLongest(cmds[1..], n - |e|);
        assert cmds[..k][1..] == cmds[1..][..k - 1];
        assert EncodeAll(cmds[..k]) == e + EncodeAll(cmds[1..][..k - 1]);
        var j := |EncodeAll(cmds[1..][..k - 1])|;
        assert EncodeAll(cmds)[..n] == e + EncodeAll(cmds[1..])[..n - |e|];
        assert EncodeAll(cmds)[..n][..|e| + j] == e + EncodeAll(cmds[1..])[..n - |e|][..j];
        if k < |cmds| {
          assert cmds[..k + 1][1..] == cmds[1..][..k];
        }
      }
    }
  }

  /** The loader's state after running whole commands that start at `pos`. */
  function RunLog(st: Loader, cmds: seq<Argv>, pos: nat): Loader
    decreases |cmds|
  {
    if cmds == [] then st
    else
      var end := pos + |Encode(cmds[0])|;
      RunLog(RunLoaded(st, cmds[0]).(valid := end), cmds[1..], end)
  }

  /** Any prefix of a log loads as its complete commands, and then meets the end or a cut command. */
  lemma {:induction false} LoadPrefix(known: Argv -> bool, cmds: seq<Argv>, n: nat, pos: nat, st: Loader)
    requires Loggable(known, cmds)
    requires n <= |EncodeAll(cmds)|
    ensures LoadLoop(known, true, EncodeAll(cmds)[..n], pos, st)
         == var k := CompleteCount(cmds, n);
            var st' := RunLog(st, cmds[..k], pos);
            if n == |EncodeAll(cmds[..k])| then AtEnd(st', true) else Outcome(AofTruncated, st')
    decreases |cmds|
  {
    hide Encode, ReadCommand, RunLoaded, AtEnd;
    var k := CompleteCount(cmds, n);
    var p := EncodeAll(cmds)[..n];
    if n == 0 {
      assert k == 0 && cmds[..0] == [] && p == "";
      EmptyReads();
    } else {
      var c := cmds[0];
      var e := Encode(c);
      assert c != [] && FitsC(c) && known(c);
      if n < |e| {
        assert p == e[..n];
        assert cmds[..0] == [];
        ReadCommandCut(c, n);
      } else {
        var rest := EncodeAll(cmds[1..])[..n - |e|];
        assert p == e + rest;
        ReadCommandWhole(c, rest);
        var end := pos + |e|;
        LoadPrefix(known, cmds[1..], n - |e|, end, RunLoaded(st, c).(valid := end));
        assert cmds[..k][1..] == cmds[1..][..k - 1];
      }
    }
  }

  lemma EmptyReads()
    ensures ReadCommand("") == Eof
  {
  }

  // ----- offsets and effects of a run -----

  function RunClient(c: Client, cmds: seq<Argv>): Client
    decreases |cmds|
  {
    if cmds == [] then c else RunClient(RunCommand(c, cmds[0]), cmds[1..])
  }

  lemma {:induction false} RunLogClient(st: Loader, cmds: seq<Argv>, pos: nat)
    requires st.valid == pos
    ensures var st' := RunLog(st, cmds, pos);
            st'.client == RunClient(st.client, cmds) && st'.valid == pos + |EncodeAll(cmds)|
    decreases |cmds|
  {
    hide Encode, RunCommand;
    if cmds != [] {
      var end := pos + |Encode(cmds[0])|;
      RunLogClient(RunLoaded(st, cmds[0]).(valid := end), cmds[1..], end);
    }
  }

  predicate Plain(argv: Argv) {
    !IsMulti(argv) && !IsExec(argv)
  }

  predicate AllPlain(cmds: seq<Argv>) {
    forall i :: 0 <= i < |cmds| ==> Plain(cmds[i])
  }

  lemma {:induction false} RunPlain(c: Client, cmds: seq<Argv>)
    requires !c.multi && AllPlain(cmds)
    ensures RunClient(c, cmds) == c.(executed := c.executed + cmds)
    decreases |cmds|
  {
    hide IsMulti, IsExec;
    if cmds == [] {
      assert c.executed + cmds == c.executed;
    } else {
      assert Plain(cmds[0]);
      RunPlain(RunCommand(c, cmds[0]), cmds[1..]);
      assert c.executed + [cmds[0]] + cmds[1..] == c.executed + cmds;
    }
  }

  /**
   Recovery of a cut log without transactions: the load succeeds, executes
   exactly the longest run of complete commands, and leaves exactly their
   encoding in the file.
   */
  lemma RecoverPlainLog(known: Argv -> bool, cmds: seq<Argv>, n: nat)
    requires Loggable(known, cmds) && AllPlain(cmds)
    requires n <= |EncodeAll(cmds)|
    ensures var bytes := EncodeAll(cmds)[..n];
            var k := CompleteCount(cmds, n);
            var o := LoadFile(known, true, bytes);
            && o.status == (if n == 0 then AofEmpty else if n == |EncodeAll(cmds[..k])| then AofOk else AofTruncated)
            && o.st.client.executed == cmds[..k]
            && !o.st.client.multi
            && FileAfter(bytes, o) == EncodeAll(cmds[..k])
  {
    hide LoadLoop, RunCommand, Encode;
    var bytes := EncodeAll(cmds)[..n];
    var k := CompleteCount(cmds, n);
    CompleteIsLongest(cmds, n);
    if n == 0 {
      ZeroComplete(cmds);
    } else {
      LoadPrefix(known, cmds, n, 0, START);
      RunLogClient(START, cmds[..k], 0);
      RunPlain(FRESH, cmds[..k]);
      assert [] + cmds[..k] == cmds[..k];
    }
  }

  lemma ZeroComplete(cmds: seq<Argv>)
    ensures CompleteCount(cmds, 0) == 0
  {
  }

  // ----- transactions in the log -----

  /** MULTI and EXEC alternate, as the server writes them. */
  /** Every transaction of the log is complete. */
  predicate Closed(cmds: seq<Argv>) {
    WellNested(false, cmds) && !EndsOpen(false, cmds)
  }

  predicate WellNested(open: bool, cmds: seq<Argv>)
    decreases |cmds|
  {
    cmds == []
    || (if IsMulti(cmds[0]) then !open && WellNested(true, cmds[1..])
        else if IsExec(cmds[0]) then open && WellNested(false, cmds[1..])
        else WellNested(open, cmds[1..]))
  }

  /** Whether the log leaves a transaction open. */
  predicate EndsOpen(open: bool, cmds: seq<Argv>)
    decreases |cmds|
  {
    if cmds == [] then open
    else if IsMulti(cmds[0]) then EndsOpen(true, cmds[1..])
    else if IsExec(cmds[0]) then EndsOpen(false, cmds[1..])
    else EndsOpen(open, cmds[1..])
  }

  /** The position of the last MULTI, or the length of the log. */
  function LastMulti(cmds: seq<Argv>): (m: nat)
    ensures m <= |cmds|
    ensures m < |cmds| ==> IsMulti(cmds[m])
    decreases |cmds|
  {
    if cmds == [] then 0
    else
      var m := LastMulti(cmds[1..]);
      if m < |cmds| - 1 then m + 1 else if IsMulti(cmds[0]) then 0 else |cmds|
  }

  lemma {:induction false} RunClientSplit(c: Client, a: seq<Argv>, b: seq<Argv>)
    ensures RunClient(c, a + b) == RunClient(RunClient(c, a), b)
    decreases |a|
  {
    hide RunCommand;
    if a == [] {
      assert a + b == b;
    } else {
      assert (a + b)[1..] == a[1..] + b;
      RunClientSplit(RunCommand(c, a[0]), a[1..], b);
    }
  }

  lemma NotBoth(argv: Argv)
    ensures !(IsMulti(argv) && IsExec(argv))
  {
    assert |"multi"| != |"exec"|;
  }

  lemma {:induction false} RunMulti(c: Client, cmds: seq<Argv>)
    requires WellNested(c.multi, cmds)
    ensures RunClient(c, cmds).multi == EndsOpen(c.multi, cmds)
    decreases |cmds|
  {
    hide IsMulti, IsExec;
    if cmds != [] {
      NotBoth(cmds[0]);
      RunMulti(RunCommand(c, cmds[0]), cmds[1..]);
    }
  }

  lemma {:induction false} RunQueued(c: Client, cmds: seq<Argv>)
    requires c.multi && (forall i :: 0 <= i < |cmds| ==> !IsExec(cmds[i]))
    ensures var r := RunClient(c, cmds); r.multi && r.executed == c.executed
    decreases |cmds|
  {
    if cmds != [] {
      RunQueued(RunCommand(c, cmds[0]), cmds[1..]);
    }
  }

  /** An open transaction began at the last MULTI, outside any other, and holds no EXEC since. */
  lemma {:induction false} OpenTail(open: bool, cmds: seq<Argv>)
    requires WellNested(open, cmds) && EndsOpen(open, cmds)
    ensures var m := LastMulti(cmds);
            if m == |cmds| then open && (forall i :: 0 <= i < |cmds| ==> Plain(cmds[i]))
            else !EndsOpen(open, cmds[..m])
                 && WellNested(open, cmds[..m])
                 && (forall i :: m < i < |cmds| ==> Plain(cmds[i]))
    decreases |cmds|
  {
    hide IsMulti, IsExec;
    if cmds != [] {
      NotBoth(cmds[0]);
      var open' := if IsMulti(cmds[0]) then true else if IsExec(cmds[0]) then false else open;
      OpenTail(open', cmds[1..]);
      var m := LastMulti(cmds);
      if m < |cmds| {
        if m == 0 {
          assert cmds[..0] == [];
          assert forall i :: 0 < i < |cmds| ==> cmds[i] == cmds[1..][i - 1];
        } else {
          assert cmds[..m][1..] == cmds[1..][..m - 1];
          assert forall i :: m < i < |cmds| ==> cmds[i] == cmds[1..][i - 1];
        }
      } else {
        assert forall i :: 0 < i < |cmds| ==> cmds[i] == cmds[1..][i - 1];
      }
    }
  }

  lemma {:induction false} RunBeforeMulti(st: Loader, cmds: seq<Argv>, pos: nat)
    requires st.valid == pos
    ensures RunLog(st, cmds, pos).beforeMulti
         == var m := LastMulti(cmds);
            if m == |cmds| then st.beforeMulti else pos + |EncodeAll(cmds[..m])|
    decreases |cmds|
  {
    hide Encode, RunCommand, IsMulti;
    if cmds != [] {
      var end := pos + |Encode(cmds[0])|;
      RunBeforeMulti(RunLoaded(st, cmds[0]).(valid := end), cmds[1..], end);
      var m := LastMulti(cmds);
      if 0 < m < |cmds| {
        assert cmds[..m][1..] == cmds[1..][..m - 1];
      } else if m == 0 {
        assert cmds[..0] == [];
      }
    }
  }

  lemma {:induction false} AllComplete(cmds: seq<Argv>)
    ensures CompleteCount(cmds, |EncodeAll(cmds)|) == |cmds|
    decreases |cmds|
  {
    hide Encode;
    if cmds != [] {
      AllComplete(cmds[1..]);
    }
  }

  /** Loading an uncut log. */
  lemma LoadWhole(known: Argv -> bool, cmds: seq<Argv>)
    requires Loggable(known, cmds)
    ensures LoadFile(known, true, EncodeAll(cmds)).st.client == RunClient(FRESH, cmds)
  {
    hide LoadLoop, RunCommand, RunClient, Encode;
    if cmds == [] {
      RunNothing(FRESH);
    } else {
      var n := |EncodeAll(cmds)|;
      AllComplete(cmds);
      assert EncodeAll(cmds)[..n] == EncodeAll(cmds);
      assert cmds[..|cmds|] == cmds;
      LoadPrefix(known, cmds, n, 0, START);
      RunLogClient(START, cmds, 0);
      assert EncodeAll(cmds) != "";
    }
  }

  lemma RunNothing(c: Client)
    ensures RunClient(c, []) == c
  {
  }

  /** The part of a cut log that recovery keeps in the file. */
  function Kept(cmds: seq<Argv>, n: nat): seq<Argv> {
    var k := CompleteCount(cmds, n);
    if n == |EncodeAll(cmds[..k])| && EndsOpen(false, cmds[..k])
    then cmds[..k][..LastMulti(cmds[..k])] else cmds[..k]
  }

  /** The log was cut at the end of a command, outside any transaction. */
  predicate AtRest(cmds: seq<Argv>, n: nat) {
    var k := CompleteCount(cmds, n);
    n == |EncodeAll(cmds[..k])| && !EndsOpen(false, cmds[..k])
  }

  /** The log was cut inside a command of a transaction. */
  predicate Torn(cmds: seq<Argv>, n: nat) {
    var k := CompleteCount(cmds, n);
    n != |EncodeAll(cmds[..k])| && EndsOpen(false, cmds[..k])
  }

  lemma {:induction false} NestedPrefix(open: bool, cmds: seq<Argv>, k: nat)
    requires WellNested(open, cmds) && k <= |cmds|
    ensures WellNested(open, cmds[..k])
    decreases |cmds|
  {
    hide IsMulti, IsExec;
    if k > 0 {
      assert cmds[..k][1..] == cmds[1..][..k - 1];
      var open' := if IsMulti(cmds[0]) then true else if IsExec(cmds[0]) then false else open;
      NestedPrefix(open', cmds[1..], k - 1);
    }
  }

  lemma {:induction false} NestedConcat(open: bool, a: seq<Argv>, b: seq<Argv>)
    requires WellNested(open, a) && WellNested(EndsOpen(open, a), b)
    ensures WellNested(open, a + b) && EndsOpen(open, a + b) == EndsOpen(EndsOpen(open, a), b)
    decreases |a|
  {
    hide IsMulti, IsExec;
    if a == [] {
      assert a + b == b;
    } else {
      assert (a + b)[1..] == a[1..] + b;
      var open' := if IsMulti(a[0]) then true else if IsExec(a[0]) then false else open;
      NestedConcat(open', a[1..], b);
    }
  }

  lemma {:induction false} EncodePrefix(cmds: seq<Argv>, m: nat)
    requires m <= |cmds|
    ensures |EncodeAll(cmds[..m])| <= |EncodeAll(cmds)|
    ensures EncodeAll(cmds)[..|EncodeAll(cmds[..m])|] == EncodeAll(cmds[..m])
  {
    EncodeAllSplit(cmds[..m], cmds[m..]);
    assert cmds[..m] + cmds[m..] == cmds;
  }

  /**
   Recovery of any cut log: what was executed are the effects of the commands
   kept in the file, whole transactions only; the file holds exactly those.
   */
  lemma RecoverLog(known: Argv -> bool, cmds: seq<Argv>, n: nat)
    requires Loggable(known, cmds) && WellNested(false, cmds)
    requires n <= |EncodeAll(cmds)|
    ensures var bytes := EncodeAll(cmds)[..n];
            var o := LoadFile(known, true, bytes);
            && o.status == (if n == 0 then AofEmpty else if AtRest(cmds, n) then AofOk else AofTruncated)
            && FileAfter(bytes, o) == EncodeAll(Kept(cmds, n))
            && o.st.client.executed == RunClient(FRESH, Kept(cmds, n)).executed
  {
    hide LoadLoop, RunCommand, RunClient, Encode, IsMulti, IsExec;
    var bytes := EncodeAll(cmds)[..n];
    var k := CompleteCount(cmds, n);
    CompleteIsLongest(cmds, n);
    if n == 0 {
      ZeroComplete(cmds);
      RunNothing(FRESH);
      assert cmds[..0] == [];
    } else {
      var done := cmds[..k];
      LoadPrefix(known, cmds, n, 0, START);
      RunLogClient(START, done, 0);
      NestedPrefix(false, cmds, k);
      RunMulti(FRESH, done);
      if n == |EncodeAll(done)| && EndsOpen(false, done) {
        var m := LastMulti(done);
        RunBeforeMulti(START, done, 0);
        OpenTail(false, done);
        OpenExecuted(done);
        EncodePrefix(done, m);
      }
    }
  }

  /** An open transaction has executed nothing. */
  lemma OpenExecuted(cmds: seq<Argv>)
    requires WellNested(false, cmds) && EndsOpen(false, cmds)
    ensures LastMulti(cmds) < |cmds|
    ensures RunClient(FRESH, cmds).executed == RunClient(FRESH, cmds[..LastMulti(cmds)]).executed
  {
    hide IsMulti, IsExec, RunClient;
    var m := LastMulti(cmds);
    OpenTail(false, cmds);
    var pre, tail := cmds[..m], cmds[m + 1..];
    var c := RunClient(FRESH, pre);
    RunMulti(FRESH, pre);
    RunClientSplit(FRESH, pre, cmds[m..]);
    assert pre + cmds[m..] == cmds;
    RunClientSplit(c, [cmds[m]], tail);
    assert [cmds[m]] + tail == cmds[m..];
    NotBoth(cmds[m]);
    RunOne(c, cmds[m]);
    RunQueued(RunCommand(c, cmds[m]), tail);
  }

  lemma RunOne(c: Client, argv: Argv)
    ensures RunClient(c, [argv]) == RunCommand(c, argv)
  {
  }

  /**
   After recovery the server appends to the file. A command it then logs is
   replayed by the next load exactly when the log was not torn: otherwise the
   command lands in the transaction that was left open, and is lost.
   */
  lemma AppendAfterRecovery(known: Argv -> bool, cmds: seq<Argv>, n: nat, next: Argv)
    requires Loggable(known, cmds) && WellNested(false, cmds)
    requires n <= |EncodeAll(cmds)|
    requires Loggable(known, [next]) && Plain(next)
    ensures var bytes := EncodeAll(cmds)[..n];
            var o := LoadFile(known, true, bytes);
            var again := LoadFile(known, true, FileAfter(bytes, o) + Encode(next));
            again.st.client.executed == o.st.client.executed + [next] <==> !Torn(cmds, n)
  {
    hide LoadLoop, LoadFile, RunClient, Encode, IsMulti, IsExec;
    RecoverLog(known, cmds, n);
    var kept := Kept(cmds, n);
    EncodeAllSplit(kept, [next]);
    assert EncodeAll([next]) == Encode(next) by {
      assert Encode(next) + "" == Encode(next);
    }
    LoadWhole(known, kept + [next]);
    var c := RunClient(FRESH, kept);
    RunClientSplit(FRESH, kept, [next]);
    RunOne(c, next);
    var k := CompleteCount(cmds, n);
    NestedPrefix(false, cmds, k);
    KeptOpen(cmds, n);
    RunMulti(FRESH, kept);
    assert Plain(next);
  }

  lemma KeptOpen(cmds: seq<Argv>, n: nat)
    requires WellNested(false, cmds)
    ensures WellNested(false, Kept(cmds, n))
    ensures EndsOpen(false, Kept(cmds, n)) == Torn(cmds, n)
  {
    var k := CompleteCount(cmds, n);
    NestedPrefix(false, cmds, k);
    if EndsOpen(false, cmds[..k]) {
      OpenTail(false, cmds[..k]);
    }
  }

  /** Without transactions no cut tears the log. */
  lemma {:induction false} PlainIsWhole(cmds: seq<Argv>, n: nat)
    requires AllPlain(cmds)
    ensures Closed(cmds) && !Torn(cmds, n)
  {
    hide CompleteCount, EncodeAll;
    PlainCloses(cmds);
    PlainCloses(cmds[..CompleteCount(cmds, n)]);
  }

  lemma {:induction false} PlainCloses(cmds: seq<Argv>)
    requires AllPlain(cmds)
    ensures WellNested(false, cmds) && !EndsOpen(false, cmds)
    decreases |cmds|
  {
    hide IsMulti, IsExec;
    if cmds != [] {
      assert Plain(cmds[0]);
      PlainCloses(cmds[1..]);
    }
  }

  /** A log that is torn: a transaction cut one byte into its first command. */
  const MULTI_CMD := ["MULTI"]
  const SET_CMD := ["SET", "k", "v"]

  lemma TornHappens()
    ensures WellNested(false, [MULTI_CMD, SET_CMD])
    ensures |Encode(MULTI_CMD)| + 1 <= |EncodeAll([MULTI_CMD, SET_CMD])|
    ensures Torn([MULTI_CMD, SET_CMD], |Encode(MULTI_CMD)| + 1)
  {
    hide Encode, ToLower;
    var cmds := [MULTI_CMD, SET_CMD];
    MultiAndSet();
    assert cmds[1..] == [SET_CMD] && [SET_CMD][1..] == [];
    assert EncodeAll([]) == "";
    assert EncodeAll([SET_CMD]) == Encode(SET_CMD) + "";
    assert EncodeAll(cmds) == Encode(MULTI_CMD) + EncodeAll([SET_CMD]);
    assert CompleteCount([SET_CMD], 1) == 0;
    assert CompleteCount(cmds, |Encode(MULTI_CMD)| + 1) == 1;
    assert cmds[..1] == [MULTI_CMD] && [MULTI_CMD][1..] == [];
    assert EncodeAll([MULTI_CMD]) == Encode(MULTI_CMD) + "";
    assert EndsOpen(true, []);
    assert EndsOpen(false, [MULTI_CMD]);
    assert WellNested(true, [SET_CMD]) by { assert WellNested(true, []); }
  }

  lemma MultiAndSet()
    ensures IsMulti(MULTI_CMD) && !IsExec(MULTI_CMD) && Plain(SET_CMD)
    ensures |Encode(SET_CMD)| > 1
  {
    assert ToLower("MULTI") == "multi" && ToLower("SET") == "set";
    assert Encode(SET_CMD) == Header(3) + EncodeArgs(SET_CMD);
  }

  /** A command logged after that recovery is lost. */
  lemma TornLoses(known: Argv -> bool, next: Argv)
    requires Loggable(known, [MULTI_CMD, SET_CMD]) && Loggable(known, [next]) && Plain(next)
    ensures |Encode(MULTI_CMD)| + 1 <= |EncodeAll([MULTI_CMD, SET_CMD])|
    ensures var bytes := EncodeAll([MULTI_CMD, SET_CMD])[..|Encode(MULTI_CMD)| + 1];
            var o := LoadFile(known, true, bytes);
            LoadFile(known, true, FileAfter(bytes, o) + Encode(next)).st.client.executed
            != o.st.client.executed + [next]
  {
    hide LoadFile, Torn, Encode, EncodeAll, FileAfter;
    TornHappens();
    AppendAfterRecovery(known, [MULTI_CMD, SET_CMD], |Encode(MULTI_CMD)| + 1, next);
  }
}
