/**
 Flushing the AOF buffer to the file (aof.c), with a file system whose writes
 may stop short or fail and whose ftruncate may fail.
 */
module AofFlush {
  import opened Sds
  import opened AofLog
  import opened AofFeed

  /** What one write system call does: some bytes, EINTR, or an error. */
  datatype WriteResult = Wrote(n: nat) | Interrupted | WriteError

  /**
   The open incremental file, its descriptor and the server's buffer. The
   descriptor is in append mode when it was opened on server start
   (O_APPEND), and not when it was opened by a background rewrite.
   */
  datatype Aof = Aof(file: string, offset: nat, append: bool, buf: string, lastIncrSize: nat, writeOk: bool)

  function Zeros(n: nat): string {
    seq(n, _ => '\0')
  }

  /** write(2) of `data` at a position: a gap before it reads as zeros. */
  function WriteAt(file: string, pos: nat, data: string): string {
    if data == "" then file
    else
      var head := if pos <= |file| then file[..pos] else file + Zeros(pos - |file|);
      head + data + (if pos + |data| < |file| then file[pos + |data|..] else "")
  }

  function Truncate(file: string, len: nat): string {
    if len <= |file| then file[..len] else file + Zeros(len - |file|)
  }

  function Pos(a: Aof): nat {
    if a.append then |a.file| else a.offset
  }

  /** The effect of writing `data` through the descriptor. */
  function Write(a: Aof, data: string): Aof {
    if data == "" then a
    else a.(file := WriteAt(a.file, Pos(a), data), offset := Pos(a) + |data|)
  }

  function Min(x: nat, y: nat): nat {
    if x < y then x else y
  }

  /**
   How many of `len` bytes the retry loop gets written. Running out of listed
   results stands for one more error.
   */
  function Total(results: seq<WriteResult>, len: nat): (t: nat)
    ensures t <= len
    decreases |results|
  {
    if len == 0 || results == [] || results[0].WriteError? then 0
    else if results[0].Interrupted? then Total(results[1..], len)
    else
      var k := Min(results[0].n, len);
      k + Total(results[1..], len - k)
  }

  lemma TotalStep(results: seq<WriteResult>, i: nat, len: nat)
    requires len > 0 && i < |results| && !results[i].WriteError?
    ensures Total(results[i..], len)
         == if results[i].Interrupted? then Total(results[i + 1..], len)
            else var k := Min(results[i].n, len); k + Total(results[i + 1..], len - k)
  {
    assert results[i..][1..] == results[i + 1..];
  }

  lemma TotalStops(results: seq<WriteResult>, i: nat, len: nat)
    requires i <= |results|
    requires len == 0 || i == |results| || results[i].WriteError?
    ensures Total(results[i..], len) == 0
  {
  }

  /** Two writes in a row write the concatenation. */
  lemma WriteTwice(a: Aof, x: string, y: string)
    ensures Write(Write(a, x), y) == Write(a, x + y)
  {
    if x == "" {
      assert x + y == y;
    } else if y == "" {
      assert x + y == x;
    } else {
      var p := Pos(a);
      var f := WriteAt(a.file, p, x);
      var head := if p <= |a.file| then a.file[..p] else a.file + Zeros(p - |a.file|);
      assert |head| == p;
      if a.append {
        assert f == a.file + x;
      } else {
        assert f[..p + |x|] == head + x;
      }
      assert WriteAt(f, p + |x|, y) == WriteAt(a.file, p, x + y);
    }
  }

  /** flushAppendOnlyFile from the write on, for a fsync policy other than "always". */
  function Flush(a: Aof, results: seq<WriteResult>, truncateOk: bool): Aof {
    if a.buf == "" then a
    else
      var t := Total(results, |a.buf|);
      var w := Write(a, a.buf[..t]);
      if t == |a.buf| then w.(lastIncrSize := a.lastIncrSize + t, buf := "", writeOk := true)
      else if t == 0 then w.(writeOk := false)
      else if truncateOk then w.(file := Truncate(w.file, a.lastIncrSize), writeOk := false)
      else w.(lastIncrSize := a.lastIncrSize + t, buf := a.buf[t..], writeOk := false)
  }

  /** The server side of the append only file. */
  class AppendOnlyFile {
    var file: string
    var offset: nat
    const append: bool
    var buf: string
    var lastIncrSize: nat
    var writeOk: bool
    var selectedDb: int

    function View(): Aof
      reads this
    {
      Aof(file, offset, append, buf, lastIncrSize, writeOk)
    }

    /** aofOpenIfNeededOnServerStart: an existing file, opened for appending. */
    constructor OpenOnServerStart(contents: string)
      ensures View() == Aof(contents, 0, true, "", |contents|, true)
      ensures selectedDb == -1
    {
      file, offset, append, buf, lastIncrSize, writeOk := contents, 0, true, "", |contents|, true;
      selectedDb := -1;
    }

    /** openNewIncrAofForAppend: a fresh file, without the append flag; what is left in the buffer stays there. */
    constructor OpenNewIncr(left: string, writeOk: bool)
      ensures View() == Aof("", 0, false, left, 0, writeOk)
      ensures selectedDb == -1
    {
      file, offset, append, buf, lastIncrSize, this.writeOk := "", 0, false, left, 0, writeOk;
      selectedDb := -1;
    }

    /** feedAppendOnlyFile while the AOF is on. */
    method FeedAppendOnlyFile(f: Fed)
      requires f.dictid >= -1
      modifies this`buf, this`selectedDb
      ensures buf == old(buf) + EncodeAll(FeedOne(old(selectedDb), f))
      ensures selectedDb == SelectedAfter(old(selectedDb), f)
    {
      hide Encode;
      var out := "";
      if f.dictid != -1 && f.dictid != selectedDb {
        var seldb := Dec(f.dictid);
        out := "*2\r\n$6\r\nSELECT\r\n$" + Dec(|seldb|) + "\r\n" + seldb + "\r\n";
        SelectText(f.dictid);
        assert [SelectCommand(f.dictid), f.argv][1..] == [f.argv];
        selectedDb := f.dictid;
      }
      ghost var select := out;
      out := CatAppendOnlyGenericCommand(out, f.argv);
      assert [f.argv][1..] == [];
      assert EncodeAll([f.argv]) == Encode(f.argv) + "";
      assert out == select + Encode(f.argv);
      buf := buf + out;
    }

    /** aofWrite: retry on short writes and EINTR; -1 only if nothing was written. */
    method AofWrite(results: seq<WriteResult>) returns (nwritten: int)
      modifies this`file, this`offset
      ensures var t := Total(results, |buf|);
              && View() == Write(old(View()), buf[..t])
              && nwritten == (if t == |buf| || t > 0 then t else -1)
    {
      hide WriteAt, Total;
      var tot, i := 0, 0;
      assert results[0..] == results;
      while tot < |buf| && i < |results| && !results[i].WriteError?
        invariant 0 <= tot <= |buf| && 0 <= i <= |results|
        invariant Total(results, |buf|) == tot + Total(results[i..], |buf| - tot)
        invariant View() == Write(old(View()), buf[..tot])
      {
        TotalStep(results, i, |buf| - tot);
        if results[i].Wrote? {
          var k := Min(results[i].n, |buf| - tot);
          var chunk := buf[tot..tot + k];
          WriteTwice(old(View()), buf[..tot], chunk);
          assert buf[..tot] + chunk == buf[..tot + k];
          if k > 0 {
            var pos := if append then |file| else offset;
            file := WriteAt(file, pos, chunk);
            offset := pos + k;
          }
          tot := tot + k;
        }
        i := i + 1;
      }
      TotalStops(results, i, |buf| - tot);
      return if tot == |buf| || tot > 0 then tot else -1;
    }

    /** flushAppendOnlyFile, when it is not postponed behind a background fsync. */
    method FlushAppendOnlyFile(results: seq<WriteResult>, truncateOk: bool)
      modifies this
      ensures View() == Flush(old(View()), results, truncateOk)
      ensures selectedDb == old(selectedDb)
    {
      if buf == "" {
        return;
      }
      var nwritten := AofWrite(results);
      if nwritten != |buf| {
        writeOk := false;
        if nwritten != -1 {
          if truncateOk {
            file := Truncate(file, lastIncrSize);
            nwritten := -1;
          }
        }
        if nwritten > 0 {
          lastIncrSize := lastIncrSize + nwritten;
          buf := buf[nwritten..];
        }
        return;
      }
      writeOk := true;
      lastIncrSize := lastIncrSize + nwritten;
      buf := "";
    }
  }

  // ----- conservation -----

  /** The recorded size is the size of the file, and the next write lands at its end. */
  predicate InSync(a: Aof) {
    |a.file| == a.lastIncrSize && (a.append || a.offset == |a.file|)
  }

  /** A flush through a descriptor at the end of the file neither loses nor adds a byte. */
  lemma FlushConserves(a: Aof, results: seq<WriteResult>, truncateOk: bool)
    requires InSync(a)
    ensures var a' := Flush(a, results, truncateOk);
            && a'.file + a'.buf == a.file + a.buf
            && |a'.file| == a'.lastIncrSize
            && (a.append ==> InSync(a'))
  {
    if a.buf != "" {
      var t := Total(results, |a.buf|);
      var w := Write(a, a.buf[..t]);
      assert w.file == a.file + a.buf[..t] by {
        assert a.file[..|a.file|] == a.file;
      }
      assert a.buf[..t] + a.buf[t..] == a.buf;
      assert (a.file + a.buf[..t])[..|a.file|] == a.file;
    }
  }

  datatype Event = Feed(bytes: string) | TryFlush(results: seq<WriteResult>, truncateOk: bool)

  function Step(a: Aof, e: Event): Aof {
    match e
    case Feed(bytes) => a.(buf := a.buf + bytes)
    case TryFlush(results, truncateOk) => Flush(a, results, truncateOk)
  }

  function Run(a: Aof, es: seq<Event>): Aof
    decreases |es|
  {
    if es == [] then a else Run(Step(a, es[0]), es[1..])
  }

  function FedBytes(es: seq<Event>): string
    decreases |es|
  {
    if es == [] then "" else (if es[0].Feed? then es[0].bytes else "") + FedBytes(es[1..])
  }

  /**
   Over any interleaving of feeds and flushes of an append-mode file, the file
   followed by the buffer is exactly what was fed, and the recorded size is
   the file's.
   */
  lemma {:induction false} FlushConservation(a: Aof, es: seq<Event>)
    requires a.append && InSync(a)
    ensures var a' := Run(a, es);
            && a'.file + a'.buf == a.file + a.buf + FedBytes(es)
            && |a'.file| == a'.lastIncrSize
    decreases |es|
  {
    hide Flush;
    if es == [] {
      assert a.file + a.buf + "" == a.file + a.buf;
    } else {
      var a1 := Step(a, es[0]);
      if es[0].TryFlush? {
        FlushConserves(a, es[0].results, es[0].truncateOk);
        FlushKeepsMode(a, es[0].results, es[0].truncateOk);
        assert a.file + a.buf + FedBytes(es) == a1.file + a1.buf + FedBytes(es[1..]);
      } else {
        assert a1.file + a1.buf + FedBytes(es[1..]) == a.file + a.buf + FedBytes(es);
      }
      FlushConservation(a1, es[1..]);
    }
  }

  lemma FlushKeepsMode(a: Aof, results: seq<WriteResult>, truncateOk: bool)
    ensures Flush(a, results, truncateOk).append == a.append
  {
  }

  // ----- the file opened by a background rewrite has no append flag -----

  /** Whether a flush leaves bytes of the buffer in the file. */
  predicate KeepsBytes(a: Aof, results: seq<WriteResult>, truncateOk: bool) {
    var t := Total(results, |a.buf|);
    t > 0 && (t == |a.buf| || !truncateOk)
  }

  /**
   A flush that leaves bytes in the file conserves the log exactly when the
   descriptor stands at the end of the file.
   */
  lemma FlushExact(a: Aof, results: seq<WriteResult>, truncateOk: bool)
    requires |a.file| == a.lastIncrSize && a.offset >= |a.file|
    requires KeepsBytes(a, results, truncateOk)
    ensures var a' := Flush(a, results, truncateOk);
            a'.file + a'.buf == a.file + a.buf <==> a.append || a.offset == |a.file|
  {
    if a.append || a.offset == |a.file| {
      FlushConserves(a, results, truncateOk);
    } else {
      var t := Total(results, |a.buf|);
      var w := Write(a, a.buf[..t]);
      assert |w.file| == a.offset + t;
      var a' := Flush(a, results, truncateOk);
      assert |a'.file + a'.buf| == |a.file + a.buf| + (a.offset - |a.file|);
    }
  }

  /** It stops standing there exactly when a short write is undone by ftruncate. */
  lemma OffsetDrifts(a: Aof, results: seq<WriteResult>, truncateOk: bool)
    requires InSync(a) && !a.append
    ensures InSync(Flush(a, results, truncateOk)) <==> !(0 < Total(results, |a.buf|) < |a.buf| && truncateOk)
  {
    FlushConserves(a, results, truncateOk);
  }

  /** The first `k` events leave file and buffer equal to what was there and what was fed. */
  predicate Conserved(a: Aof, es: seq<Event>, k: nat)
    requires k <= |es|
  {
    var b := Run(a, es[..k]);
    b.file + b.buf == a.file + a.buf + FedBytes(es[..k])
  }

  /**
   No short write that is undone by ftruncate comes before a flush that leaves
   bytes in the file; `undone` says whether one has come already.
   */
  predicate NoHole(a: Aof, es: seq<Event>, undone: bool)
    decreases |es|
  {
    es == []
    || (es[0].Feed? && NoHole(Step(a, es[0]), es[1..], undone))
    || (es[0].TryFlush?
        && !(undone && KeepsBytes(a, es[0].results, es[0].truncateOk))
        && NoHole(Step(a, es[0]), es[1..], undone || Undone(a, es[0].results, es[0].truncateOk)))
  }

  predicate Undone(a: Aof, results: seq<WriteResult>, truncateOk: bool) {
    0 < Total(results, |a.buf|) < |a.buf| && truncateOk
  }

  /** The recorded size is the file's, and the descriptor stands past its end exactly if a write was undone. */
  predicate Drifted(a: Aof, undone: bool) {
    !a.append && |a.file| == a.lastIncrSize && a.offset >= |a.file| && (undone <==> a.offset > |a.file|)
  }

  /** One flush: what it does to the bytes and to the descriptor. */
  lemma FlushDrifts(a: Aof, results: seq<WriteResult>, truncateOk: bool, undone: bool)
    requires Drifted(a, undone)
    ensures var a' := Flush(a, results, truncateOk);
            if undone && KeepsBytes(a, results, truncateOk) then a'.file + a'.buf != a.file + a.buf
            else a'.file + a'.buf == a.file + a.buf && Drifted(a', undone || Undone(a, results, truncateOk))
  {
    var t := Total(results, |a.buf|);
    if KeepsBytes(a, results, truncateOk) {
      FlushExact(a, results, truncateOk);
      if !undone {
        OffsetDrifts(a, results, truncateOk);
        FlushKeepsMode(a, results, truncateOk);
      }
    } else if t > 0 {
      var w := Write(a, a.buf[..t]);
      assert w.file[..|a.file|] == a.file;
    }
  }

  lemma RunFirst(a: Aof, es: seq<Event>, k: nat)
    requires es != [] && 0 < k <= |es|
    ensures Run(a, es[..k]) == Run(Step(a, es[0]), es[1..][..k - 1])
    ensures FedBytes(es[..k]) == (if es[0].Feed? then es[0].bytes else "") + FedBytes(es[1..][..k - 1])
  {
    assert es[..k][1..] == es[1..][..k - 1];
  }

  /** A step that conserves passes the question on to the rest of the run. */
  lemma ConservedNext(a: Aof, es: seq<Event>)
    requires es != []
    requires var a1 := Step(a, es[0]); a1.file + a1.buf == a.file + a.buf + if es[0].Feed? then es[0].bytes else ""
    ensures (forall k :: 0 <= k <= |es| ==> Conserved(a, es, k))
       <==> (forall k :: 0 <= k <= |es[1..]| ==> Conserved(Step(a, es[0]), es[1..], k))
  {
    hide Step;
    var a1 := Step(a, es[0]);
    forall k | 0 < k <= |es| ensures Conserved(a, es, k) <==> Conserved(a1, es[1..], k - 1) {
      hide Run, FedBytes;
      RunFirst(a, es, k);
      var fed := if es[0].Feed? then es[0].bytes else "";
      var rest := FedBytes(es[1..][..k - 1]);
      assert a1.file + a1.buf + rest == a.file + a.buf + (fed + rest);
    }
    assert Conserved(a, es, 0) by { assert es[..0] == []; }
    if forall k :: 0 <= k <= |es| ==> Conserved(a, es, k) {
      forall k | 0 <= k <= |es[1..]| ensures Conserved(a1, es[1..], k) {
        assert Conserved(a, es, k + 1);
      }
    }
  }

  /**
   A file that is not in append mode: over any run, file and buffer are at
   every moment exactly what was fed if and only if no short write undone by
   ftruncate is followed by a flush that leaves bytes in the file.
   */
  lemma {:induction false} RunHole(a: Aof, es: seq<Event>, undone: bool)
    requires Drifted(a, undone)
    ensures (forall k :: 0 <= k <= |es| ==> Conserved(a, es, k)) <==> NoHole(a, es, undone)
    decreases |es|
  {
    hide Flush, Conserved, KeepsBytes, Undone;
    if es == [] {
      NothingRun(a, es);
    } else {
      var a1 := Step(a, es[0]);
      if es[0].Feed? {
        assert a1.file + a1.buf == a.file + a.buf + es[0].bytes;
        ConservedNext(a, es);
        RunHole(a1, es[1..], undone);
      } else {
        var results, truncateOk := es[0].results, es[0].truncateOk;
        FlushDrifts(a, results, truncateOk, undone);
        if undone && KeepsBytes(a, results, truncateOk) {
          OneRun(a, es);
        } else {
          assert a.file + a.buf + "" == a.file + a.buf;
          ConservedNext(a, es);
          RunHole(a1, es[1..], undone || Undone(a, results, truncateOk));
        }
      }
    }
  }

  lemma NothingRun(a: Aof, es: seq<Event>)
    requires es == []
    ensures forall k :: 0 <= k <= |es| ==> Conserved(a, es, k)
  {
    assert a.file + a.buf + "" == a.file + a.buf;
  }

  lemma OneRun(a: Aof, es: seq<Event>)
    requires es != [] && es[0].TryFlush?
    ensures Conserved(a, es, 1) <==> (var a1 := Step(a, es[0]); a1.file + a1.buf == a.file + a.buf)
  {
    hide Flush;
    RunFirst(a, es, 1);
    assert es[1..][..0] == [];
    assert a.file + a.buf + ("" + "") == a.file + a.buf;
  }

  /** The file that openNewIncrAofForAppend opens. */
  lemma NewFileConserves(left: string, writeOk: bool, es: seq<Event>)
    ensures var a := Aof("", 0, false, left, 0, writeOk);
            (forall k :: 0 <= k <= |es| ==> Conserved(a, es, k)) <==> NoHole(a, es, false)
  {
    RunHole(Aof("", 0, false, left, 0, writeOk), es, false);
  }

  /** The gap in a file opened by openNewIncrAofForAppend: a short write, its truncation, and a full write. */
  lemma RewriteFileGetsHole()
    ensures var a0 := Aof("", 0, false, "abc", 0, true);
            var a1 := Flush(a0, [Wrote(1), WriteError], true);
            var a2 := Flush(a1, [Wrote(3)], true);
            a2.file + a2.buf == "\0abc"
  {
    var a0 := Aof("", 0, false, "abc", 0, true);
    var r0 := [Wrote(1), WriteError];
    assert r0[1..] == [WriteError];
    assert Total(r0, 3) == 1;
    var w := Write(a0, "abc"[..1]);
    assert w.file[..0] == "";
    var a1 := Flush(a0, r0, true);
    assert a1 == Aof("", 1, false, "abc", 0, false);
    var r1 := [Wrote(3)];
    assert r1[1..] == [];
    assert Total(r1, 3) == 3;
    assert "abc"[..3] == "abc";
    assert WriteAt("", 1, "abc") == Zeros(1) + "abc";
    assert Zeros(1) == "\0";
  }
}
