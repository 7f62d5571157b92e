/**
 The command log of the append only file (aof.c): the encoding that commands
 are fed with, and the loader that replays a log and cuts off an unfinished
 tail.
 */
module AofLog {
  import opened Sds
  import opened Manifest

  type Argv = seq<string>

  const AOF_ANNOTATION_LINE_MAX_LEN: nat := 1024

  // ----- encoding -----

  function EncodeArg(arg: string): string {
    "$" + Dec(|arg|) + "\r\n" + arg + "\r\n"
  }

  function EncodeArgs(argv: Argv): string {
    if argv == [] then "" else EncodeArg(argv[0]) + EncodeArgs(argv[1..])
  }

  function Header(argc: nat): string {
    "*" + Dec(argc) + "\r\n"
  }

  /** catAppendOnlyGenericCommand onto an empty buffer. */
  function Encode(argv: Argv): (s: string)
    ensures s != "" && s[0] == '*'
  {
    Header(|argv|) + EncodeArgs(argv)
  }

  function EncodeAll(cmds: seq<Argv>): string {
    if cmds == [] then "" else Encode(cmds[0]) + EncodeAll(cmds[1..])
  }

  lemma {:induction false} EncodeAllSplit(a: seq<Argv>, b: seq<Argv>)
    ensures EncodeAll(a + b) == EncodeAll(a) + EncodeAll(b)
    decreases |a|
  {
    hide Encode;
    if a == [] {
      assert a + b == b;
    } else {
      assert (a + b)[1..] == a[1..] + b;
      EncodeAllSplit(a[1..], b);
    }
  }

  lemma {:induction false} EncodeArgsSplit(a: Argv, b: Argv)
    ensures EncodeArgs(a + b) == EncodeArgs(a) + EncodeArgs(b)
    decreases |a|
  {
    hide EncodeArg;
    if a == [] {
      assert a + b == b;
    } else {
      assert (a + b)[1..] == a[1..] + b;
      EncodeArgsSplit(a[1..], b);
    }
  }

  /** catAppendOnlyGenericCommand */
  method CatAppendOnlyGenericCommand(dst: string, argv: Argv) returns (r: string)
    ensures r == dst + Encode(argv)
  {
    r := dst + ("*" + Dec(|argv|) + "\r\n");
    ghost var head := Header(|argv|);
    hide Header, Dec;
    assert argv[..0] == [];
    var j := 0;
    while j < |argv|
      invariant 0 <= j <= |argv|
      invariant r == dst + head + EncodeArgs(argv[..j])
    {
      var o := argv[j];
      r := r + ("$" + Dec(|o|) + "\r\n") + o + "\r\n";
      assert r == dst + head + (EncodeArgs(argv[..j]) + EncodeArg(o));
      assert argv[..j + 1] == argv[..j] + [o];
      EncodeArgsSplit(argv[..j], [o]);
      assert EncodeArgs([o]) == EncodeArg(o);
      j := j + 1;
    }
    assert argv[..j] == argv;
  }

  // ----- reading one command -----

  datatype Args = Args(argv: Argv, rest: string) | ArgsReadErr | ArgsFmtErr

  /**
   The argument loop of the loader. A length that is negative once parsed is
   a huge unsigned size, which the allocator refuses; it is classed here with
   the format errors.
   */
  function ReadArgs(r: string, argc: nat): Args
    decreases argc
  {
    if argc == 0 then Args([], r)
    else
      var n := LineLen(r, AOF_ANNOTATION_LINE_MAX_LEN - 1);
      if n == 0 then ArgsReadErr
      else if r[0] != '$' then ArgsFmtErr
      else
        var len := Atoll(r[1..n]);
        var data := r[n..];
        if len < 0 then ArgsFmtErr
        else if |data| < len + 2 then ArgsReadErr
        else
          var tail := ReadArgs(data[len + 2..], argc - 1);
          if tail.Args? then Args([data[..len]] + tail.argv, tail.rest) else tail
  }

  datatype Command = Eof | Annotation(after: string) | Command(argv: Argv, rest: string) | ReadErr(eof: bool) | FmtErr

  /** One turn of the loader's loop, up to the point where a command has been read. */
  function ReadCommand(r: string): (c: Command)
    ensures c.Annotation? ==> |c.after| < |r|
    ensures c.Command? ==> |c.rest| < |r|
  {
    var n := LineLen(r, AOF_ANNOTATION_LINE_MAX_LEN - 1);
    if n == 0 then Eof
    else if r[0] == '#' then Annotation(r[n..])
    else if r[0] != '*' then FmtErr
    else if At(r[..n], 1) == '\0' then
      // the read error counts as an unexpected end only if fgets met the end of the file
      ReadErr(n == |r| && r[n - 1] != '\n' && n < AOF_ANNOTATION_LINE_MAX_LEN - 1)
    else
      var argc := Atoll(r[1..n]);
      if argc < 1 then FmtErr
      else
        var args := ReadArgs(r[n..], argc);
        match args
        case Args(argv, rest) => ReadArgsShrinks(r[n..], argc); Command(argv, rest)
        case ArgsReadErr => ReadErr(true)
        case ArgsFmtErr => FmtErr
  }

  lemma {:induction false} ReadArgsShrinks(r: string, argc: nat)
    ensures var a := ReadArgs(r, argc); a.Args? ==> |a.rest| <= |r|
    decreases argc
  {
    if argc > 0 {
      var n := LineLen(r, AOF_ANNOTATION_LINE_MAX_LEN - 1);
      if n > 0 && r[0] == '$' {
        var len := Atoll(r[1..n]);
        var data := r[n..];
        if 0 <= len && len + 2 <= |data| {
          ReadArgsShrinks(data[len + 2..], argc - 1);
        }
      }
    }
  }

  // ----- the loader -----

  predicate Is(argv: Argv, name: string) {
    argv != [] && ToLower(argv[0]) == name
  }

  predicate IsMulti(argv: Argv) { Is(argv, "multi") }
  predicate IsExec(argv: Argv) { Is(argv, "exec") }
  predicate IsSelect(argv: Argv) { Is(argv, "select") && |argv| == 2 }

  datatype Status = AofOk | AofTruncated | AofEmpty | AofFailed

  /** The fake client: whether it is inside MULTI, what it has queued there, what it has executed. */
  datatype Client = Client(multi: bool, queued: seq<Argv>, executed: seq<Argv>)

  const FRESH := Client(false, [], [])

  /** One command in the fake client; inside MULTI everything but EXEC is queued. */
  function RunCommand(c: Client, argv: Argv): Client {
    if c.multi && !IsExec(argv) then c.(queued := c.queued + [argv])
    else if IsMulti(argv) then c.(multi := true, queued := [])
    else if IsExec(argv) then Client(false, [], c.executed + c.queued)
    else c.(executed := c.executed + [argv])
  }

  /** The loader's state: where the last complete command ended, and where the last MULTI began. */
  datatype Loader = Loader(client: Client, valid: nat, beforeMulti: nat)

  const START := Loader(FRESH, 0, 0)

  /** Running a command and noting the offset of a MULTI. */
  function RunLoaded(st: Loader, argv: Argv): Loader {
    Loader(RunCommand(st.client, argv), st.valid, if IsMulti(argv) then st.valid else st.beforeMulti)
  }

  datatype Outcome = Outcome(status: Status, st: Loader)

  /** The end of the file where a command could have started. */
  function AtEnd(st: Loader, loadTruncated: bool): Outcome {
    if st.client.multi then
      var st' := st.(valid := st.beforeMulti);
      Outcome(if loadTruncated then AofTruncated else AofFailed, st')
    else Outcome(AofOk, st)
  }

  /** The loop of loadSingleAppendOnlyFile from offset `pos`, with `r` left to read. */
  function LoadLoop(known: Argv -> bool, loadTruncated: bool, r: string, pos: nat, st: Loader): Outcome
    decreases |r|
  {
    match ReadCommand(r)
    case Eof => AtEnd(st, loadTruncated)
    case Annotation(rest) => LoadLoop(known, loadTruncated, rest, pos + |r| - |rest|, st)
    case FmtErr => Outcome(AofFailed, st)
    case ReadErr(eof) => Outcome(if eof && loadTruncated then AofTruncated else AofFailed, st)
    case Command(argv, rest) =>
      if !known(argv) then Outcome(AofFailed, st)
      else
        var end := pos + |r| - |rest|;
        var st1 := RunLoaded(st, argv);
        LoadLoop(known, loadTruncated, rest, end, if loadTruncated then st1.(valid := end) else st1)
  }

  /** loadSingleAppendOnlyFile on the contents of an existing file without RDB preamble. */
  function LoadFile(known: Argv -> bool, loadTruncated: bool, bytes: string): Outcome {
    if bytes == "" then Outcome(AofEmpty, START) else LoadLoop(known, loadTruncated, bytes, 0, START)
  }

  /** What the file holds after loading: a truncated load cuts it at the valid offset. */
  function FileAfter(bytes: string, o: Outcome): string {
    if o.status == AofTruncated && o.st.valid <= |bytes| then bytes[..o.st.valid] else bytes
  }

  lemma AtEndIs(st: Loader, loadTruncated: bool)
    ensures AtEnd(st, loadTruncated)
         == if st.client.multi
            then Outcome(if loadTruncated then AofTruncated else AofFailed, st.(valid := st.beforeMulti))
            else Outcome(AofOk, st)
  {
  }

  lemma LoadLoopStep(known: Argv -> bool, loadTruncated: bool, r: string, pos: nat, st: Loader)
    ensures var c := ReadCommand(r);
            var o := LoadLoop(known, loadTruncated, r, pos, st);
            && (c.Eof? ==> o == AtEnd(st, loadTruncated))
            && (c.FmtErr? ==> o == Outcome(AofFailed, st))
            && (c.ReadErr? ==> o == Outcome(if c.eof && loadTruncated then AofTruncated else AofFailed, st))
            && (c.Annotation? ==> o == LoadLoop(known, loadTruncated, c.after, pos + |r| - |c.after|, st))
            && (c.Command? && !known(c.argv) ==> o == Outcome(AofFailed, st))
            && (c.Command? && known(c.argv) ==>
                  var end := pos + |r| - |c.rest|;
                  var st1 := RunLoaded(st, c.argv);
                  o == LoadLoop(known, loadTruncated, c.rest, end, if loadTruncated then st1.(valid := end) else st1))
  {
    hide ReadCommand, RunLoaded;
  }

  /** loadSingleAppendOnlyFile */
  method LoadSingleAppendOnlyFile(known: Argv -> bool, loadTruncated: bool, bytes: string) returns (o: Outcome)
    ensures o == LoadFile(known, loadTruncated, bytes)
  {
    hide LoadLoop, ReadCommand, RunLoaded, AtEnd, RunCommand, LineLen;
    if bytes == "" {
      return Outcome(AofEmpty, START);
    }
    var st, r := START, bytes;
    var pos: nat := 0;
    var c := ReadCommand(r);
    ghost var goal := LoadFile(known, loadTruncated, bytes);
    hide LoadFile;
    while (c.Command? && known(c.argv)) || c.Annotation?
      invariant c == ReadCommand(r)
      invariant LoadLoop(known, loadTruncated, r, pos, st) == goal
      invariant goal == LoadFile(known, loadTruncated, bytes)
      decreases |r|
    {
      LoadLoopStep(known, loadTruncated, r, pos, st);
      if c.Annotation? {
        pos, r := pos + |r| - |c.after|, c.after;
      } else {
        st := RunLoaded(st, c.argv);
        pos, r := pos + |r| - |c.rest|, c.rest;
        if loadTruncated {
          st := st.(valid := pos);
        }
      }
      c := ReadCommand(r);
    }
    LoadLoopStep(known, loadTruncated, r, pos, st);
    AtEndIs(st, loadTruncated);
    if c.Eof? {
      if !st.client.multi {
        return Outcome(AofOk, st);
      }
      st := st.(valid := st.beforeMulti);
    }
    var unexpectedEnd := c.Eof? || (c.ReadErr? && c.eof);
    return Outcome(if unexpectedEnd && loadTruncated then AofTruncated else AofFailed, st);
  }
}
