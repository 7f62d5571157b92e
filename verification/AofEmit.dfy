/**
 The commands that a rewrite emits for a list or a set (rewriteListObject and
 rewriteSetObject in aof.c): a header that announces how many arguments will
 follow, written before they are, and at most 64 items to a command.
 */
module AofEmit {
  import opened Sds
  import opened AofLog
  import opened AofRecovery

  const ITEMS_PER_CMD := 64

  function Smaller(a: nat, b: nat): nat { if a > b then b else a }

  /** The commands that rebuild the items. */
  function Chunks(verb: string, key: string, items: seq<string>): seq<Argv>
    decreases |items|
  {
    if items == [] then []
    else
      var n := Smaller(|items|, ITEMS_PER_CMD);
      [[verb, key] + items[..n]] + Chunks(verb, key, items[n..])
  }

  /** What is still to be written when `count` items of the current command are out. */
  function ToWrite(verb: string, key: string, rest: seq<string>, count: nat): string
    requires count < ITEMS_PER_CMD
  {
    if count == 0 then EncodeAll(Chunks(verb, key, rest)) else Current(verb, key, rest, count)
  }

  /** The items left to the current command, and the commands after it. */
  function Current(verb: string, key: string, rest: seq<string>, count: nat): string
    requires count < ITEMS_PER_CMD
  {
    var n := Smaller(|rest|, ITEMS_PER_CMD - count);
    EncodeArgs(rest[..n]) + EncodeAll(Chunks(verb, key, rest[n..]))
  }

  lemma Wrote(out: string, piece: string, rest: string)
    ensures (out + piece) + rest == out + (piece + rest) && out <= out + rest
  {
  }

  lemma OpenChunk(verb: string, key: string, rest: seq<string>)
    requires rest != []
    ensures var n := Smaller(|rest|, ITEMS_PER_CMD);
            ToWrite(verb, key, rest, 0)
            == Header(2 + n) + (EncodeArg(verb) + (EncodeArg(key) + Current(verb, key, rest, 0)))
  {
    hide Header, EncodeArg;
    var n := Smaller(|rest|, ITEMS_PER_CMD);
    var argv := [verb, key] + rest[..n];
    EncodeArgsSplit([verb, key], rest[..n]);
    assert [verb, key][1..] == [key] && [key][1..] == [];
    assert EncodeArgs([key]) == EncodeArg(key) + "";
    assert EncodeArgs([verb, key]) == EncodeArg(verb) + EncodeArg(key);
    var cs := Chunks(verb, key, rest);
    assert cs[1..] == Chunks(verb, key, rest[n..]);
    assert EncodeAll(cs) == Encode(argv) + EncodeAll(cs[1..]);
    assert Encode(argv) == Header(2 + n) + EncodeArgs(argv);
  }

  /** One item of the current command. */
  lemma NextItem(verb: string, key: string, rest: seq<string>, count: nat)
    requires rest != [] && count < ITEMS_PER_CMD
    ensures Current(verb, key, rest, count)
            == EncodeArg(rest[0]) + ToWrite(verb, key, rest[1..], if count + 1 == ITEMS_PER_CMD then 0 else count + 1)
  {
    hide EncodeArg, Chunks;
    var n := Smaller(|rest|, ITEMS_PER_CMD - count);
    assert rest[..n][1..] == rest[1..][..n - 1];
    assert rest[1..][n - 1..] == rest[n..];
    assert rest[..n][0] == rest[0];
    var more := EncodeArgs(rest[1..][..n - 1]);
    var later := EncodeAll(Chunks(verb, key, rest[n..]));
    assert EncodeArgs(rest[..n]) == EncodeArg(rest[0]) + more;
    Wrote(EncodeArg(rest[0]), more, later);
    if count + 1 == ITEMS_PER_CMD {
      assert rest[1..][..0] == [];
      assert EncodeArgs([]) == "";
    }
  }

  /**
   rewriteListObject with RPUSH and rewriteSetObject with SADD. `accepts` says
   which write of the output succeeds; the first that does not ends the work.
   */
  method RewriteItems(verb: string, key: string, items: seq<string>, accepts: nat -> bool)
    returns (out: string, ok: bool)
    ensures ok ==> out == EncodeAll(Chunks(verb, key, items))
    ensures out <= EncodeAll(Chunks(verb, key, items))
    ensures (forall i :: accepts(i)) ==> ok
  {
    hide Chunks, EncodeArg, EncodeAll, Header, Current, ToWrite;
    out := "";
    var count, left, w := 0, |items|, 0;
    ghost var all := EncodeAll(Chunks(verb, key, items));
    StartWriting(verb, key, items);
    var j := 0;
    assert items[0..] == items;
    while j < |items|
      invariant 0 <= j <= |items| && left == |items| - j && 0 <= count < ITEMS_PER_CMD
      invariant out + ToWrite(verb, key, items[j..], count) == all
    {
      ghost var rest := items[j..];
      if count == 0 {
        var cmdItems := if left > ITEMS_PER_CMD then ITEMS_PER_CMD else left;
        out, ok := WriteOpening(out, verb, key, cmdItems, accepts, w, rest, all);
        if !ok { return; }
        w := w + 3;
      } else {
        InCommand(verb, key, rest, count);
      }
      Wrote(out, "", Current(verb, key, rest, count));
      NextItem(verb, key, rest, count);
      if !accepts(w) { return out, false; }
      ghost var count2 := if count + 1 == ITEMS_PER_CMD then 0 else count + 1;
      Wrote(out, EncodeArg(items[j]), ToWrite(verb, key, rest[1..], count2));
      out := out + EncodeArg(items[j]);
      w := w + 1;
      count := count + 1;
      if count == ITEMS_PER_CMD {
        count := 0;
      }
      left := left - 1;
      assert rest[1..] == items[j + 1..];
      j := j + 1;
    }
    ok := true;
    NothingToWrite(verb, key, count);
    assert items[j..] == [];
    assert out + "" == out;
  }

  /** The three writes that open a command. */
  method WriteOpening(before: string, verb: string, key: string, n: nat, accepts: nat -> bool, w: nat,
                      ghost rest: seq<string>, ghost all: string) returns (out: string, ok: bool)
    requires rest != [] && n == Smaller(|rest|, ITEMS_PER_CMD)
    requires before + ToWrite(verb, key, rest, 0) == all
    ensures out <= all && (ok ==> out + Current(verb, key, rest, 0) == all)
    ensures ok == (accepts(w) && accepts(w + 1) && accepts(w + 2))
  {
    hide EncodeArg, Header, Current, ToWrite;
    OpenChunk(verb, key, rest);
    out, ok := before, false;
    ghost var tail := Current(verb, key, rest, 0);
    Wrote(out, Header(2 + n), EncodeArg(verb) + (EncodeArg(key) + tail));
    Wrote(out, "", ToWrite(verb, key, rest, 0));
    if !accepts(w) { return; }
    out := out + Header(2 + n);
    Wrote(out, EncodeArg(verb), EncodeArg(key) + tail);
    Wrote(out, "", EncodeArg(verb) + (EncodeArg(key) + tail));
    if !accepts(w + 1) { return; }
    out := out + EncodeArg(verb);
    Wrote(out, EncodeArg(key), tail);
    Wrote(out, "", EncodeArg(key) + tail);
    if !accepts(w + 2) { return; }
    out := out + EncodeArg(key);
    Wrote(out, "", tail);
    ok := true;
  }

  lemma StartWriting(verb: string, key: string, items: seq<string>)
    ensures "" + ToWrite(verb, key, items, 0) == EncodeAll(Chunks(verb, key, items))
  {
  }

  lemma InCommand(verb: string, key: string, rest: seq<string>, count: nat)
    requires 0 < count < ITEMS_PER_CMD
    ensures ToWrite(verb, key, rest, count) == Current(verb, key, rest, count)
  {
  }

  lemma NothingToWrite(verb: string, key: string, count: nat)
    requires count < ITEMS_PER_CMD
    ensures ToWrite(verb, key, [], count) == ""
  {
  }

  // ----- replay -----

  /** The items a run of such commands carries. */
  function Carried(cmds: seq<Argv>): seq<string>
    decreases |cmds|
  {
    if cmds == [] then [] else (if |cmds[0]| < 2 then [] else cmds[0][2..]) + Carried(cmds[1..])
  }

  predicate WellFormed(verb: string, key: string, cmd: Argv) {
    3 <= |cmd| <= 2 + ITEMS_PER_CMD && cmd[0] == verb && cmd[1] == key
  }

  /** Every command has the key and 1 to 64 items, and together they carry all items in order. */
  lemma {:induction false} ChunksCarry(verb: string, key: string, items: seq<string>)
    ensures var cs := Chunks(verb, key, items);
            (forall i :: 0 <= i < |cs| ==> WellFormed(verb, key, cs[i])) && Carried(cs) == items
    decreases |items|
  {
    if items != [] {
      var n := Smaller(|items|, ITEMS_PER_CMD);
      ChunksCarry(verb, key, items[n..]);
      var cs := Chunks(verb, key, items);
      assert cs[0] == [verb, key] + items[..n];
      assert cs[1..] == Chunks(verb, key, items[n..]);
      assert cs[0][2..] == items[..n];
      forall i | 0 <= i < |cs| ensures WellFormed(verb, key, cs[i]) {
        assert i > 0 ==> cs[i] == cs[1..][i - 1];
      }
      assert items == items[..n] + items[n..];
    }
  }

  /** The first `k` commands are those of the first 64k items. */
  lemma {:induction false} ChunksPrefix(verb: string, key: string, items: seq<string>, k: nat)
    requires k <= |Chunks(verb, key, items)|
    ensures Chunks(verb, key, items)[..k] == Chunks(verb, key, items[..Smaller(|items|, ITEMS_PER_CMD * k)])
    decreases |items|
  {
    if k > 0 {
      var n := Smaller(|items|, ITEMS_PER_CMD);
      var m := Smaller(|items|, ITEMS_PER_CMD * k);
      var cs := Chunks(verb, key, items);
      assert cs[1..] == Chunks(verb, key, items[n..]);
      ChunksPrefix(verb, key, items[n..], k - 1);
      assert cs[..k] == [cs[0]] + cs[1..][..k - 1];
      assert items[..m][..n] == items[..n];
      assert items[..m][n..] == items[n..][..Smaller(|items[n..]|, ITEMS_PER_CMD * (k - 1))];
    }
  }

  datatype Value = List(items: seq<string>) | Members(members: set<string>)

  /** RPUSH and SADD on the keyspace: a key is created by the first and refused to the wrong type. */
  function Execute(db: map<string, Value>, argv: Argv): map<string, Value> {
    if |argv| < 3 then db
    else
      var key := argv[1];
      if Is(argv, "rpush") then
        if key !in db then db[key := List(argv[2..])]
        else if db[key].List? then db[key := List(db[key].items + argv[2..])] else db
      else if Is(argv, "sadd") then
        if key !in db then db[key := Members(set x | x in argv[2..])]
        else if db[key].Members? then db[key := Members(db[key].members + set x | x in argv[2..])] else db
      else db
  }

  function ExecuteAll(db: map<string, Value>, cmds: seq<Argv>): map<string, Value>
    decreases |cmds|
  {
    if cmds == [] then db else ExecuteAll(Execute(db, cmds[0]), cmds[1..])
  }

  predicate Verb(verb: string) {
    verb == "RPUSH" || verb == "SADD"
  }

  /** The value made of the items by either command. */
  function ValueOf(verb: string, items: seq<string>): Value {
    if verb == "RPUSH" then List(items) else Members(set x | x in items)
  }

  lemma VerbMeans(verb: string)
    requires Verb(verb)
    ensures ToLower(verb) == if verb == "RPUSH" then "rpush" else "sadd"
  {
  }

  /** One command on a key that holds the items before it, or nothing. */
  lemma ExecuteChunk(db: map<string, Value>, verb: string, key: string, before: seq<string>, cmd: Argv)
    requires Verb(verb) && WellFormed(verb, key, cmd)
    requires if before == [] then key !in db else key in db && db[key] == ValueOf(verb, before)
    ensures Execute(db, cmd) == db[key := ValueOf(verb, before + cmd[2..])]
  {
    hide ToLower;
    VerbMeans(verb);
    var more := cmd[2..];
    assert (set x | x in before + more) == (set x | x in before) + set x | x in more;
    assert [] + more == more;
  }

  lemma {:induction false} ExecuteChunks(db: map<string, Value>, verb: string, key: string, before: seq<string>,
                                         items: seq<string>)
    requires Verb(verb)
    requires if before == [] then key !in db else key in db && db[key] == ValueOf(verb, before)
    ensures ExecuteAll(db, Chunks(verb, key, items))
            == if items == [] then db else db[key := ValueOf(verb, before + items)]
    decreases |items|
  {
    hide Execute, ValueOf;
    if items != [] {
      var n := Smaller(|items|, ITEMS_PER_CMD);
      var cs := Chunks(verb, key, items);
      var cmd := [verb, key] + items[..n];
      assert cs[0] == cmd && cs[1..] == Chunks(verb, key, items[n..]);
      assert cmd[2..] == items[..n];
      ExecuteChunk(db, verb, key, before, cmd);
      var db' := db[key := ValueOf(verb, before + items[..n])];
      ExecuteChunks(db', verb, key, before + items[..n], items[n..]);
      assert before + items[..n] + items[n..] == before + items;
      if n == |items| {
        assert items[..n] == items && items[n..] == [];
      }
    }
  }

  /** The sizes fit C, and the server knows the commands. */
  ghost predicate Writable(known: Argv -> bool, verb: string, key: string, items: seq<string>) {
    && |key| < 0x8000_0000_0000_0000
    && (forall i :: 0 <= i < |items| ==> |items[i]| < 0x8000_0000_0000_0000)
    && (forall cmd :: WellFormed(verb, key, cmd) ==> known(cmd))
  }

  lemma {:induction false} ChunksLoggable(known: Argv -> bool, verb: string, key: string, items: seq<string>)
    requires Verb(verb) && Writable(known, verb, key, items)
    ensures var cs := Chunks(verb, key, items); Loggable(known, cs) && AllPlain(cs)
    decreases |items|
  {
    hide ToLower;
    VerbMeans(verb);
    if items != [] {
      var n := Smaller(|items|, ITEMS_PER_CMD);
      var cmd := [verb, key] + items[..n];
      assert WellFormed(verb, key, cmd);
      var cs := Chunks(verb, key, items);
      ChunksLoggable(known, verb, key, items[n..]);
      assert cs[0] == cmd && cs[1..] == Chunks(verb, key, items[n..]);
      assert "rpush" != "multi" && "rpush" != "exec" && "sadd" != "multi" && "sadd" != "exec";
      assert FitsC(cmd) && Plain(cmd) && known(cmd);
      forall i | 0 <= i < |cs| ensures cs[i] != [] && FitsC(cs[i]) && known(cs[i]) && Plain(cs[i]) {
        assert i > 0 ==> cs[i] == cs[1..][i - 1];
      }
    }
  }

  /** The value a rewrite of the items leaves under a key that was absent. */
  function Rebuilt(db: map<string, Value>, verb: string, key: string, items: seq<string>): map<string, Value> {
    if items == [] then db else db[key := ValueOf(verb, items)]
  }

  /**
   Loading what a rewrite emitted. The whole stream rebuilds the value under
   its key and touches nothing else; a stream cut at any byte, as a failed
   write leaves it, rebuilds the value of the first 64k items, where k is the
   number of commands that are whole in it.
   */
  lemma RewriteRebuilds(known: Argv -> bool, db: map<string, Value>, verb: string, key: string, items: seq<string>,
                        n: nat)
    requires Verb(verb) && Writable(known, verb, key, items) && key !in db
    requires n <= |EncodeAll(Chunks(verb, key, items))|
    ensures var all := EncodeAll(Chunks(verb, key, items));
            var executed := LoadFile(known, true, all[..n]).st.client.executed;
            var k := CompleteCount(Chunks(verb, key, items), n);
            && ExecuteAll(db, executed) == Rebuilt(db, verb, key, items[..Smaller(|items|, ITEMS_PER_CMD * k)])
            && (n == |all| ==> ExecuteAll(db, executed) == Rebuilt(db, verb, key, items))
  {
    hide Chunks, EncodeAll, LoadFile, Execute, ExecuteAll, ValueOf, Writable, Loggable, AllPlain, CompleteCount;
    var cs := Chunks(verb, key, items);
    var k := CompleteCount(cs, n);
    ChunksLoggable(known, verb, key, items);
    RecoverPlainLog(known, cs, n);
    ChunksPrefix(verb, key, items, k);
    ExecuteChunks(db, verb, key, [], items[..Smaller(|items|, ITEMS_PER_CMD * k)]);
    assert [] + items[..Smaller(|items|, ITEMS_PER_CMD * k)] == items[..Smaller(|items|, ITEMS_PER_CMD * k)];
    if n == |EncodeAll(cs)| {
      AllComplete(cs);
      assert cs[..|cs|] == cs;
      ExecuteChunks(db, verb, key, [], items);
      assert [] + items == items;
    }
  }
}
