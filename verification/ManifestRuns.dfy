/**
 Whole manifests: printing and loading a well-formed manifest gives it back,
 the update functions keep every manifest sane, and a manifest they can
 produce survives a restart under an exact condition.
 */
module ManifestRuns {
  import opened Sds
  import opened Manifest

  // ----- round trip of a whole manifest -----

  predicate GoodEntry(ai: Info) {
    && EntryShape(ai)
    && NameSurvives(ai.name)
    && |FormatInfo(ai)| <= MANIFEST_MAX_LINE
  }

  predicate GoodEntries(infos: seq<Info>) {
    forall i :: 0 <= i < |infos| ==> GoodEntry(infos[i])
  }

  predicate AllOfType(infos: seq<Info>, t: char) {
    forall i :: 0 <= i < |infos| ==> infos[i].fileType == t
  }

  predicate Increasing(infos: seq<Info>) {
    forall i, j :: 0 <= i < j < |infos| ==> infos[i].fileSeq < infos[j].fileSeq
  }

  /** The current numbers are those of the base and of the last incremental file. */
  predicate CurrentSeqs(am: Manifest) {
    && am.currBaseSeq == (if am.base.Some? then am.base.value.fileSeq else 0)
    && am.currIncrSeq == (if am.incr != [] then am.incr[|am.incr| - 1].fileSeq else 0)
  }

  predicate WellFormed(am: Manifest) {
    && (am.base.Some? ==> am.base.value.fileType == BASE_TYPE)
    && AllOfType(am.history, HIST_TYPE)
    && AllOfType(am.incr, INCR_TYPE)
    && GoodEntries(Entries(am))
    && Increasing(am.incr)
    && CurrentSeqs(am)
  }

  /** Filing entries one after the other, as the loader does. */
  function AddAll(am: Manifest, infos: seq<Info>): LoadResult
    decreases |infos|
  {
    if infos == [] then Loaded(am)
    else
      var r := AddEntry(am, infos[0]);
      if r.Fatal? then r else AddAll(r.am, infos[1..])
  }

  lemma {:induction false} LineLenOf(line: string, rest: string, max: nat)
    requires Printable(line) && |line| < max
    ensures LineLen(line + "\n" + rest, max) == |line| + 1
    decreases |line|
  {
    var s := line + "\n" + rest;
    if line != "" {
      assert s[0] == line[0] && IsPrint(line[0]);
      assert s[1..] == line[1..] + "\n" + rest;
      LineLenOf(line[1..], rest, max - 1);
    }
  }

  /** The loader takes one printed line off the front of the text. */
  lemma LoadShortLine(ai: Info, rest: string, am: Manifest)
    requires EntryShape(ai) && |FormatInfo(ai)| <= MANIFEST_MAX_LINE
    ensures LoadFrom(FormatInfo(ai) + rest, am)
         == var l := ParseLine(FormatInfo(ai));
            if l.Bad? then Fatal(l.error)
            else var r := AddEntry(am, l.ai); if r.Fatal? then r else LoadFrom(rest, r.am)
  {
    hide ParseLine, AddEntry;
    var line := "file " + Field(ai.name) + Tail(ai);
    FormatShape(ai);
    var s := FormatInfo(ai) + rest;
    assert s == line + "\n" + rest;
    LineLenOf(line, rest, MANIFEST_MAX_LINE);
    var n := |line| + 1;
    assert s[..n] == FormatInfo(ai);
    assert s[n..] == rest;
    assert s[0] == 'f';
  }

  /** And files it, when its name survives. */
  lemma LoadOneLine(ai: Info, rest: string, am: Manifest)
    requires GoodEntry(ai)
    ensures LoadFrom(FormatInfo(ai) + rest, am)
         == var r := AddEntry(am, ai); if r.Fatal? then r else LoadFrom(rest, r.am)
  {
    hide ParseLine, AddEntry, LoadFrom;
    LoadShortLine(ai, rest, am);
    LineRoundTrip(ai);
  }

  lemma {:induction false} LoadLines(infos: seq<Info>, am: Manifest)
    requires GoodEntries(infos)
    ensures LoadFrom(FormatAll(infos), am) == AddAll(am, infos)
    decreases |infos|
  {
    hide AddEntry;
    if infos != [] {
      assert GoodEntry(infos[0]);
      LoadOneLine(infos[0], FormatAll(infos[1..]), am);
      var r := AddEntry(am, infos[0]);
      if r.Loaded? {
        LoadLines(infos[1..], r.am);
      }
    }
  }

  lemma {:induction false} AddAllSplit(am: Manifest, a: seq<Info>, b: seq<Info>)
    ensures AddAll(am, a + b)
         == var r := AddAll(am, a); if r.Fatal? then r else AddAll(r.am, b)
    decreases |a|
  {
    hide AddEntry;
    if a == [] {
      assert a + b == b;
    } else {
      assert (a + b)[1..] == a[1..] + b;
      var r := AddEntry(am, a[0]);
      if r.Loaded? {
        AddAllSplit(r.am, a[1..], b);
      }
    }
  }

  lemma {:induction false} AddHistory(am: Manifest, infos: seq<Info>)
    requires AllOfType(infos, HIST_TYPE)
    ensures AddAll(am, infos) == Loaded(am.(history := am.history + infos))
    decreases |infos|
  {
    if infos == [] {
      assert am.history + infos == am.history;
    } else {
      var am' := am.(history := am.history + [infos[0]]);
      AddHistory(am', infos[1..]);
      assert am.history + [infos[0]] + infos[1..] == am.history + infos;
    }
  }

  lemma {:induction false} AddIncr(am: Manifest, infos: seq<Info>)
    requires AllOfType(infos, INCR_TYPE) && Increasing(infos)
    requires infos != [] ==> am.currIncrSeq < infos[0].fileSeq
    ensures AddAll(am, infos)
         == Loaded(am.(incr := am.incr + infos,
                       currIncrSeq := if infos == [] then am.currIncrSeq else infos[|infos| - 1].fileSeq))
    decreases |infos|
  {
    if infos == [] {
      assert am.incr + infos == am.incr;
    } else {
      var am' := am.(incr := am.incr + [infos[0]], currIncrSeq := infos[0].fileSeq);
      AddIncr(am', infos[1..]);
      assert am.incr + [infos[0]] + infos[1..] == am.incr + infos;
    }
  }

  function BaseEntry(am: Manifest): seq<Info> {
    if am.base.Some? then [am.base.value] else []
  }

  lemma AddBase(am: Manifest)
    requires am.base.Some? ==> am.base.value.fileType == BASE_TYPE
    requires CurrentSeqs(am)
    ensures AddAll(EMPTY, BaseEntry(am)) == Loaded(EMPTY.(base := am.base, currBaseSeq := am.currBaseSeq))
  {
    assert BaseEntry(am) != [] ==> BaseEntry(am)[1..] == [];
  }

  /** Filing the entries of a well-formed manifest in print order rebuilds it. */
  lemma AddEntries(am: Manifest)
    requires WellFormed(am)
    ensures AddAll(EMPTY, Entries(am)) == Loaded(am.(dirty := false))
  {
    hide AddAll;
    var bs := BaseEntry(am);
    var am1 := EMPTY.(base := am.base, currBaseSeq := am.currBaseSeq);
    var am2 := am1.(history := am.history);
    AddBase(am);
    AddAllSplit(EMPTY, bs + am.history, am.incr);
    AddAllSplit(EMPTY, bs, am.history);
    AddHistory(am1, am.history);
    assert EMPTY.history + am.history == am.history;
    if am.incr != [] {
      var k := |bs| + |am.history|;
      assert Entries(am)[k] == am.incr[0];
      assert GoodEntry(Entries(am)[k]);
    }
    AddIncr(am2, am.incr);
    assert EMPTY.incr + am.incr == am.incr;
  }

  /** Printing a non-empty well-formed manifest and loading the text gives the same manifest, clean. */
  lemma ManifestRoundTrip(am: Manifest)
    requires WellFormed(am)
    requires Entries(am) != []
    ensures LoadManifest(Print(am)) == Loaded(am.(dirty := false))
  {
    hide AddAll, LoadFrom;
    var es := Entries(am);
    assert GoodEntry(es[0]);
    assert Print(am) != "";
    LoadLines(es, EMPTY);
    AddEntries(am);
  }

  // ----- manifests the update functions can produce -----

  predicate BaseNamed(ai: Info, aofName: string) {
    ai.fileSeq >= 1 && (ai.name == BaseName(aofName, ai.fileSeq, false) || ai.name == BaseName(aofName, ai.fileSeq, true))
  }

  predicate IncrNamed(ai: Info, aofName: string) {
    ai.fileSeq >= 1 && ai.name == IncrName(aofName, ai.fileSeq)
  }

  /** A history file carries a number that no live file of its kind carries. */
  predicate PastEntry(ai: Info, am: Manifest, aofName: string) {
    && ai.fileType == HIST_TYPE
    && ((BaseNamed(ai, aofName) && ai.fileSeq < am.currBaseSeq)
        || (IncrNamed(ai, aofName) && ai.fileSeq <= am.currIncrSeq
            && (am.incr != [] ==> ai.fileSeq < am.incr[0].fileSeq)))
  }

  /** The incremental number may outlive the last incremental file. */
  predicate Counting(am: Manifest) {
    && am.currBaseSeq == (if am.base.Some? then am.base.value.fileSeq else 0)
    && am.currIncrSeq >= 0
    && (am.incr != [] ==> am.currIncrSeq == am.incr[|am.incr| - 1].fileSeq)
  }

  predicate DistinctNames(infos: seq<Info>) {
    forall i, j :: 0 <= i < j < |infos| ==> infos[i].name != infos[j].name
  }

  /** What the update functions keep, with the AOF on or off. */
  predicate Sane(am: Manifest, aofName: string) {
    && (am.base.Some? ==> BaseNamed(am.base.value, aofName) && am.base.value.fileType == BASE_TYPE)
    && AllOfType(am.incr, INCR_TYPE)
    && (forall i :: 0 <= i < |am.incr| ==> IncrNamed(am.incr[i], aofName))
    && Increasing(am.incr)
    && Counting(am)
    && (forall i :: 0 <= i < |am.history| ==> PastEntry(am.history[i], am, aofName))
    && DistinctNames(am.history)
  }

  lemma BaseNamesDiffer(aofName: string, m: nat, n: nat, r: bool, q: bool)
    requires m != n
    ensures BaseName(aofName, m, r) != BaseName(aofName, n, q)
  {
    var a, b := BaseName(aofName, m, r), BaseName(aofName, n, q);
    if a == b {
      assert a[|aofName| + 1..|a| - 9] == Dec(m);
      assert b[|aofName| + 1..|b| - 9] == Dec(n);
      DecInjective(m, n);
    }
  }

  lemma IncrNamesDiffer(aofName: string, m: nat, n: nat)
    requires m != n
    ensures IncrName(aofName, m) != IncrName(aofName, n)
  {
    var a, b := IncrName(aofName, m), IncrName(aofName, n);
    if a == b {
      assert a[|aofName| + 1..|a| - 9] == Dec(m);
      assert b[|aofName| + 1..|b| - 9] == Dec(n);
      DecInjective(m, n);
    }
  }

  lemma BaseIsNotIncr(aofName: string, m: nat, n: nat, r: bool)
    ensures BaseName(aofName, m, r) != IncrName(aofName, n)
  {
    var a, b := BaseName(aofName, m, r), IncrName(aofName, n);
    assert a[|a| - 8] == 'b';
    assert b[|b| - 8] == 'i';
  }

  predicate Named(ai: Info, aofName: string) {
    BaseNamed(ai, aofName) || IncrNamed(ai, aofName)
  }

  /** Two files of the scheme share a name only when they are of one kind and number. */
  lemma NamesDiffer(x: Info, y: Info, aofName: string)
    requires Named(x, aofName) && Named(y, aofName)
    requires x.name == y.name
    ensures BaseNamed(x, aofName) == BaseNamed(y, aofName)
    ensures IncrNamed(x, aofName) == IncrNamed(y, aofName)
    ensures x.fileSeq == y.fileSeq
  {
    var m, n := x.fileSeq, y.fileSeq;
    if m != n {
      BaseNamesDiffer(aofName, m, n, false, false);
      BaseNamesDiffer(aofName, m, n, false, true);
      BaseNamesDiffer(aofName, m, n, true, false);
      BaseNamesDiffer(aofName, m, n, true, true);
      IncrNamesDiffer(aofName, m, n);
    }
    BaseIsNotIncr(aofName, m, n, false);
    BaseIsNotIncr(aofName, m, n, true);
    BaseIsNotIncr(aofName, n, m, false);
    BaseIsNotIncr(aofName, n, m, true);
    BaseIsNotIncr(aofName, m, m, false);
    BaseIsNotIncr(aofName, m, m, true);
    BaseIsNotIncr(aofName, n, n, false);
    BaseIsNotIncr(aofName, n, n, true);
  }

  /** No two files of a sane manifest share a name. */
  lemma SaneDistinct(am: Manifest, aofName: string)
    requires Sane(am, aofName)
    ensures DistinctNames(Entries(am))
  {
    hide BaseName, IncrName;
    var es := Entries(am);
    var b := if am.base.Some? then 1 else 0;
    var h := b + |am.history|;
    forall i, j | 0 <= i < j < |es|
      ensures es[i].name != es[j].name
    {
      if b <= i && j < h {
        assert es[i] == am.history[i - b] && es[j] == am.history[j - b];
      } else {
        if b <= i < h { assert es[i] == am.history[i - b] && PastEntry(am.history[i - b], am, aofName); }
        if b <= j < h { assert es[j] == am.history[j - b] && PastEntry(am.history[j - b], am, aofName); }
        if h <= i { assert es[i] == am.incr[i - h] && IncrNamed(am.incr[i - h], aofName); }
        if h <= j { assert es[j] == am.incr[j - h] && IncrNamed(am.incr[j - h], aofName); }
        if es[i].name == es[j].name {
          NamesDiffer(es[i], es[j], aofName);
          KindsDiffer(es[i], aofName);
        }
      }
    }
  }

  lemma KindsDiffer(x: Info, aofName: string)
    ensures !(BaseNamed(x, aofName) && IncrNamed(x, aofName))
  {
    if x.fileSeq >= 1 {
      BaseIsNotIncr(aofName, x.fileSeq, x.fileSeq, false);
      BaseIsNotIncr(aofName, x.fileSeq, x.fileSeq, true);
    }
  }

  /** Every file of a sane manifest is named by the scheme, with a number no later than the current one. */
  lemma EntryBounds(am: Manifest, aofName: string, i: nat)
    requires Sane(am, aofName)
    requires i < |Entries(am)|
    ensures var e := Entries(am)[i];
            && Named(e, aofName)
            && (BaseNamed(e, aofName) ==> e.fileSeq <= am.currBaseSeq)
            && (IncrNamed(e, aofName) ==> e.fileSeq <= am.currIncrSeq)
  {
    hide BaseName, IncrName;
    var e := Entries(am)[i];
    var b := if am.base.Some? then 1 else 0;
    var h := b + |am.history|;
    KindsDiffer(e, aofName);
    if b <= i < h {
      assert e == am.history[i - b] && PastEntry(am.history[i - b], am, aofName);
    } else if h <= i {
      assert e == am.incr[i - h] && IncrNamed(am.incr[i - h], aofName);
    }
  }

  /** The next name of either kind is not in the manifest. */
  lemma NextNamesFresh(am: Manifest, aofName: string, rdb: bool, i: nat)
    requires Sane(am, aofName)
    requires i < |Entries(am)|
    ensures am.currIncrSeq >= 0 && am.currBaseSeq >= 0
    ensures Entries(am)[i].name != IncrName(aofName, am.currIncrSeq + 1)
    ensures Entries(am)[i].name != BaseName(aofName, am.currBaseSeq + 1, rdb)
  {
    hide BaseName, IncrName;
    SeqsNonNegative(am, aofName);
    var e := Entries(am)[i];
    EntryBounds(am, aofName, i);
    var x := Info(IncrName(aofName, am.currIncrSeq + 1), am.currIncrSeq + 1, INCR_TYPE);
    var y := Info(BaseName(aofName, am.currBaseSeq + 1, rdb), am.currBaseSeq + 1, BASE_TYPE);
    assert IncrNamed(x, aofName) && BaseNamed(y, aofName);
    if e.name == x.name {
      NamesDiffer(e, x, aofName);
    }
    if e.name == y.name {
      NamesDiffer(e, y, aofName);
    }
  }

  lemma SeqsNonNegative(am: Manifest, aofName: string)
    requires Sane(am, aofName)
    ensures am.currIncrSeq >= 0 && am.currBaseSeq >= 0
  {
  }

  lemma SaneNewIncr(am: Manifest, aofName: string)
    requires Sane(am, aofName)
    ensures Sane(NewIncr(am, aofName), aofName)
  {
    hide BaseName, IncrName;
    SeqsNonNegative(am, aofName);
    var am' := NewIncr(am, aofName);
    forall i | 0 <= i < |am'.history|
      ensures PastEntry(am'.history[i], am', aofName)
    {
      assert PastEntry(am.history[i], am, aofName);
    }
  }

  lemma SaneNewBase(am: Manifest, aofName: string, rdb: bool)
    requires Sane(am, aofName)
    ensures Sane(NewBase(am, aofName, rdb), aofName)
  {
    hide BaseName, IncrName;
    SeqsNonNegative(am, aofName);
    var am' := NewBase(am, aofName, rdb);
    forall i | 0 <= i < |am.history|
      ensures PastEntry(am.history[i], am', aofName)
      ensures am.base.Some? ==> am.history[i].name != am.base.value.name
    {
      assert PastEntry(am.history[i], am, aofName);
      if am.base.Some? && am.history[i].name == am.base.value.name {
        NamesDiffer(am.history[i], am.base.value, aofName);
        KindsDiffer(am.history[i], aofName);
      }
    }
    if am.base.Some? {
      assert PastEntry(am'.history[0], am', aofName);
      assert forall i :: 1 <= i < |am'.history| ==> am'.history[i] == am.history[i - 1];
    }
  }

  lemma SaneMarkRewritten(am: Manifest, aofOpen: bool, aofName: string)
    requires Sane(am, aofName)
    ensures Sane(MarkRewritten(am, aofOpen), aofName)
  {
    hide BaseName, IncrName;
    if am.incr != [] {
      var am' := MarkRewritten(am, aofOpen);
      var k := if aofOpen then |am.incr| - 1 else |am.incr|;
      assert forall i :: 0 <= i < k ==> am'.history[i] == am.incr[i].(fileType := HIST_TYPE);
      assert forall i :: k <= i < |am'.history| ==> am'.history[i] == am.history[i - k];
      forall i | 0 <= i < |am'.history|
        ensures PastEntry(am'.history[i], am', aofName)
      {
        if i < k {
          assert IncrNamed(am.incr[i], aofName);
        } else {
          assert PastEntry(am.history[i - k], am, aofName);
        }
      }
      MarkedDistinct(am, aofOpen, aofName);
    }
  }

  lemma MarkedDistinct(am: Manifest, aofOpen: bool, aofName: string)
    requires Sane(am, aofName) && am.incr != []
    ensures DistinctNames(MarkRewritten(am, aofOpen).history)
  {
    hide BaseName, IncrName, Sane;
    SaneDistinct(am, aofName);
    var es, hs := Entries(am), MarkRewritten(am, aofOpen).history;
    var k := if aofOpen then |am.incr| - 1 else |am.incr|;
    var b := if am.base.Some? then 1 else 0;
    var h := b + |am.history|;
    assert forall i :: 0 <= i < k ==> hs[i].name == es[h + i].name;
    assert forall i :: k <= i < |hs| ==> hs[i].name == es[b + i - k].name;
  }

  /** The edits that the AOF code makes to a manifest. */
  datatype Edit =
    | AddBaseFile(rdb: bool)    // getNewBaseFileNameAndMarkPreAsHistory
    | AddIncrFile               // getNewIncrAofName
    | MarkRewrittenFiles(aofOpen: bool) // markRewrittenIncrAofAsHistory
    | ForgetHistoryHead         // one turn of the loop of aofDelHistoryFiles
    | Persist                   // persistAofManifest

  function ApplyEdit(am: Manifest, e: Edit, aofName: string): Manifest {
    match e
    case AddBaseFile(rdb) => NewBase(am, aofName, rdb)
    case AddIncrFile => NewIncr(am, aofName)
    case MarkRewrittenFiles(aofOpen) => MarkRewritten(am, aofOpen)
    case ForgetHistoryHead => if am.history == [] then am else am.(history := am.history[1..], dirty := true)
    case Persist => am.(dirty := false)
  }

  function ApplyEdits(am: Manifest, es: seq<Edit>, aofName: string): Manifest
    decreases |es|
  {
    if es == [] then am else ApplyEdits(ApplyEdit(am, es[0], aofName), es[1..], aofName)
  }

  lemma SaneEdit(am: Manifest, e: Edit, aofName: string)
    requires Sane(am, aofName)
    ensures Sane(ApplyEdit(am, e, aofName), aofName)
  {
    match e
    case AddBaseFile(rdb) => SaneNewBase(am, aofName, rdb);
    case AddIncrFile => SaneNewIncr(am, aofName);
    case MarkRewrittenFiles(aofOpen) => SaneMarkRewritten(am, aofOpen, aofName);
    case ForgetHistoryHead =>
      var am' := ApplyEdit(am, e, aofName);
      forall i | 0 <= i < |am'.history|
        ensures PastEntry(am'.history[i], am', aofName)
      {
        assert PastEntry(am.history[i + 1], am, aofName);
      }
    case Persist =>
      var am' := ApplyEdit(am, e, aofName);
      forall i | 0 <= i < |am'.history|
        ensures PastEntry(am'.history[i], am', aofName)
      {
        assert PastEntry(am.history[i], am, aofName);
      }
  }

  /** Every sequence of edits keeps numbers growing and names distinct. */
  lemma {:induction false} EditsSane(am: Manifest, es: seq<Edit>, aofName: string)
    requires Sane(am, aofName)
    ensures var r := ApplyEdits(am, es, aofName);
            Sane(r, aofName) && DistinctNames(Entries(r))
    decreases |es|
  {
    hide Sane;
    if es == [] {
      SaneDistinct(am, aofName);
    } else {
      SaneEdit(am, es[0], aofName);
      EditsSane(ApplyEdit(am, es[0], aofName), es[1..], aofName);
    }
  }

  // ----- reachable manifests survive a restart -----

  /** A suffix that needs no quoting decides nothing about the name it extends. */
  lemma SuffixIntact(aofName: string, suffix: string)
    requires PlainText(suffix) && IsBaseName(suffix) && suffix != ""
    ensures NameSurvives(aofName + suffix) == NameIntact(aofName)
    ensures IsByteString(aofName) ==> IsByteString(aofName + suffix)
  {
    var name := aofName + suffix;
    assert forall i :: 0 <= i < |suffix| ==> PlainChar(suffix[i]);
    assert forall i :: 0 <= i < |aofName| ==> name[i] == aofName[i];
    assert forall c :: c in name <==> c in aofName || c in suffix;
    SuffixNeedsRepr(aofName, suffix);
  }

  lemma SuffixNeedsRepr(aofName: string, suffix: string)
    requires PlainText(suffix)
    ensures NeedsRepr(aofName + suffix) == NeedsRepr(aofName)
    ensures '\'' !in suffix && '\0' !in suffix
  {
    var name := aofName + suffix;
    assert forall i :: 0 <= i < |suffix| ==> PlainChar(suffix[i]);
    if NeedsRepr(aofName) {
      var i :| 0 <= i < |aofName| && NeedsReprChar(aofName[i]);
      assert NeedsReprChar(name[i]);
    }
    assert forall j :: |aofName| <= j < |name| ==> name[j] == suffix[j - |aofName|];
    if NeedsRepr(name) {
      var i :| 0 <= i < |name| && NeedsReprChar(name[i]);
      assert NeedsReprChar(aofName[i]);
    }
  }

  lemma DigitsPlain(n: nat)
    ensures PlainText(Dec(n)) && IsBaseName(Dec(n))
  {
  }

  lemma NamedSurvives(ai: Info, aofName: string)
    requires IsByteString(aofName)
    requires Named(ai, aofName)
    ensures NameSurvives(ai.name) == NameIntact(aofName) && IsByteString(ai.name)
  {
    hide NameSurvives, NameIntact;
    if ai.name == BaseName(aofName, ai.fileSeq, false) {
      ExtendedSurvives(aofName, ai.fileSeq, ".base", ".aof");
    } else if ai.name == BaseName(aofName, ai.fileSeq, true) {
      ExtendedSurvives(aofName, ai.fileSeq, ".base", ".rdb");
    } else {
      ExtendedSurvives(aofName, ai.fileSeq, ".incr", ".aof");
    }
  }

  lemma ExtendedSurvives(aofName: string, n: nat, kind: string, format: string)
    requires IsByteString(aofName)
    requires PlainText(kind) && PlainText(format) && IsBaseName(kind) && IsBaseName(format)
    ensures var name := aofName + "." + Dec(n) + kind + format;
            NameSurvives(name) == NameIntact(aofName) && IsByteString(name)
  {
    hide NameSurvives, NameIntact;
    DigitsPlain(n);
    var suffix := "." + Dec(n) + kind + format;
    assert PlainText(suffix);
    SuffixIntact(aofName, suffix);
    assert aofName + "." + Dec(n) + kind + format == aofName + suffix;
  }

  /** No line is longer than the loader's buffer. */
  predicate LinesFit(am: Manifest) {
    forall i :: 0 <= i < |Entries(am)| ==>
      IsByteString(Entries(am)[i].name) ==> |FormatInfo(Entries(am)[i])| <= MANIFEST_MAX_LINE
  }

  /** The incremental number, which is not printed, can be read off the incremental files. */
  predicate Recoverable(am: Manifest) {
    am.incr == [] ==> am.currIncrSeq == 0
  }

  /** The entries of a sane manifest, up to the length of their lines. */
  lemma SaneEntries(am: Manifest, aofName: string)
    requires IsByteString(aofName)
    requires Sane(am, aofName)
    ensures forall i :: 0 <= i < |Entries(am)| ==>
              EntryShape(Entries(am)[i]) && NameSurvives(Entries(am)[i].name) == NameIntact(aofName)
  {
    hide BaseName, IncrName, NameSurvives, NameIntact;
    var es := Entries(am);
    var b := if am.base.Some? then 1 else 0;
    var h := b + |am.history|;
    forall i | 0 <= i < |es|
      ensures EntryShape(es[i]) && NameSurvives(es[i].name) == NameIntact(aofName)
    {
      if b <= i < h { assert es[i] == am.history[i - b] && PastEntry(am.history[i - b], am, aofName); }
      if h <= i { assert es[i] == am.incr[i - h] && IncrNamed(am.incr[i - h], aofName); }
      NamedSurvives(es[i], aofName);
    }
  }

  lemma SaneWellFormed(am: Manifest, aofName: string)
    requires NameIntact(aofName) && IsByteString(aofName)
    requires Sane(am, aofName)
    requires LinesFit(am) && Recoverable(am)
    ensures WellFormed(am)
  {
    hide BaseName, IncrName, NameSurvives, NameIntact, FormatInfo;
    SaneEntries(am, aofName);
    forall i | 0 <= i < |am.history|
      ensures am.history[i].fileType == HIST_TYPE
    {
      assert PastEntry(am.history[i], am, aofName);
    }
  }

  // ----- what does not survive -----

  /** What the loader has filed it keeps. */
  lemma {:induction false} LoadKeeps(s: string, am: Manifest)
    ensures var r := LoadFrom(s, am);
            r.Loaded? ==>
              && (am.base.Some? ==> r.am.base == am.base)
              && am.history <= r.am.history
              && am.incr <= r.am.incr
    decreases |s|
  {
    hide ParseLine;
    if s != "" {
      var n := LineLen(s, MANIFEST_MAX_LINE);
      var buf := s[..n];
      if buf[0] == '#' {
        LoadKeeps(s[n..], am);
      } else {
        var l := ParseLine(buf);
        if l.Entry? {
          var r := AddEntry(am, l.ai);
          if r.Loaded? {
            LoadKeeps(s[n..], r.am);
          }
        }
      }
    }
  }

  lemma {:induction false} LineLenLong(line: string, rest: string, max: nat)
    requires Printable(line) && max <= |line|
    ensures LineLen(line + rest, max) == max
    decreases max
  {
    if max > 0 {
      var s := line + rest;
      assert s[0] == line[0] && IsPrint(line[0]);
      assert s[1..] == line[1..] + rest;
      LineLenLong(line[1..], rest, max - 1);
    }
  }

  /** A line that does not fit the buffer is refused. */
  lemma LoadLongLine(ai: Info, rest: string, am: Manifest)
    requires EntryShape(ai)
    requires |FormatInfo(ai)| > MANIFEST_MAX_LINE
    ensures LoadFrom(FormatInfo(ai) + rest, am).Fatal?
  {
    var line := "file " + Field(ai.name) + Tail(ai);
    FormatShape(ai);
    hide Field, Tail, FormatInfo;
    var s := FormatInfo(ai) + rest;
    assert s == line + ("\n" + rest);
    LineLenLong(line, "\n" + rest, MANIFEST_MAX_LINE);
    var buf := s[..MANIFEST_MAX_LINE];
    assert buf == line[..MANIFEST_MAX_LINE];
    assert forall i :: 0 <= i < |buf| ==> IsPrint(buf[i]);
    assert CStr(buf) == buf;
    assert s[0] == 'f';
  }

  lemma {:induction false} LongLineFatal(infos: seq<Info>, am: Manifest, i: nat)
    requires ByteNames(infos)
    requires forall j :: 0 <= j < |infos| ==> EntryShape(infos[j]) && NameSurvives(infos[j].name)
    requires i < |infos| && |FormatInfo(infos[i])| > MANIFEST_MAX_LINE
    ensures LoadFrom(FormatAll(infos), am).Fatal?
    decreases |infos|
  {
    hide AddEntry, LoadFrom, FormatInfo, NameSurvives;
    var ai := infos[0];
    assert EntryShape(ai) && NameSurvives(ai.name);
    if |FormatInfo(ai)| > MANIFEST_MAX_LINE {
      LoadLongLine(ai, FormatAll(infos[1..]), am);
    } else {
      assert GoodEntry(ai);
      LoadOneLine(ai, FormatAll(infos[1..]), am);
      var r := AddEntry(am, ai);
      if r.Loaded? {
        LongLineFatal(infos[1..], r.am, i - 1);
      }
    }
  }

  /** A name that does not survive: the first line is refused or filed under another name. */
  lemma LoadLostName(ai: Info, rest: string)
    requires EntryShape(ai) && !NameSurvives(ai.name)
    ensures var r := LoadFrom(FormatInfo(ai) + rest, EMPTY);
            r.Loaded? ==>
              && (ai.fileType == BASE_TYPE ==> r.am.base != Some(ai))
              && (ai.fileType == HIST_TYPE ==> r.am.history != [] && r.am.history[0] != ai)
              && (ai.fileType == INCR_TYPE ==> r.am.incr != [] && r.am.incr[0] != ai)
  {
    if |FormatInfo(ai)| > MANIFEST_MAX_LINE {
      LoadLongLine(ai, rest, EMPTY);
    } else {
      LoadShortLine(ai, rest, EMPTY);
      LineRoundTrip(ai);
      hide ParseLine, LoadFrom, NameSurvives;
      var l := ParseLine(FormatInfo(ai));
      if l.Entry? {
        var r := AddEntry(EMPTY, l.ai);
        if r.Loaded? {
          LoadKeeps(rest, r.am);
        }
      }
    }
  }

  /** The exact condition under which a sane manifest survives a restart. */
  lemma SaneRoundTrip(am: Manifest, aofName: string)
    requires IsByteString(aofName) && Sane(am, aofName)
    ensures ByteNames(Entries(am))
    ensures LoadManifest(Print(am)) == Loaded(am.(dirty := false))
            <==> Entries(am) != [] && NameIntact(aofName) && LinesFit(am) && Recoverable(am)
  {
    hide LoadFrom, NameIntact, NameSurvives, FormatInfo, BaseName, IncrName;
    SaneEntries(am, aofName);
    var es := Entries(am);
    if es == [] {
    } else if !NameIntact(aofName) {
      FirstNameLost(am, aofName);
    } else if !LinesFit(am) {
      var i :| 0 <= i < |es| && |FormatInfo(es[i])| > MANIFEST_MAX_LINE;
      LongLineFatal(es, EMPTY, i);
    } else if !Recoverable(am) {
      ForgottenNumber(am, aofName);
    } else {
      SaneWellFormed(am, aofName);
      ManifestRoundTrip(am);
    }
  }

  lemma FirstNameLost(am: Manifest, aofName: string)
    requires IsByteString(aofName) && Sane(am, aofName) && Entries(am) != [] && !NameIntact(aofName)
    requires ByteNames(Entries(am))
    ensures LoadManifest(Print(am)) != Loaded(am.(dirty := false))
  {
    hide LoadFrom, NameIntact, NameSurvives, FormatInfo, BaseName, IncrName;
    SaneEntries(am, aofName);
    var es := Entries(am);
    var ai := es[0];
    assert EntryShape(ai) && !NameSurvives(ai.name);
    LoadLostName(ai, FormatAll(es[1..]));
    if am.history != [] { assert PastEntry(am.history[0], am, aofName); }
  }

  /**
   With the AOF off a rewrite leaves no incremental file, and the text does not
   carry the incremental number: it comes back as zero.
   */
  lemma ForgottenNumber(am: Manifest, aofName: string)
    requires IsByteString(aofName) && NameIntact(aofName) && Sane(am, aofName)
    requires Entries(am) != [] && LinesFit(am) && am.incr == []
    ensures ByteNames(Entries(am))
    ensures LoadManifest(Print(am)) == Loaded(am.(currIncrSeq := 0, dirty := false))
  {
    hide LoadManifest, NameIntact, NameSurvives, FormatInfo, BaseName, IncrName;
    SaneEntries(am, aofName);
    var m := am.(currIncrSeq := 0);
    assert Entries(m) == Entries(am);
    forall i | 0 <= i < |am.history|
      ensures am.history[i].fileType == HIST_TYPE
    {
      assert PastEntry(am.history[i], am, aofName);
    }
    assert WellFormed(m);
    ManifestRoundTrip(m);
  }

  /** One incremental file, and then a rewrite with the AOF off. */
  const REWRITTEN_OFF := [AddIncrFile, AddBaseFile(true), MarkRewrittenFiles(false), Persist]
  const AFTER_OFF := Manifest(Some(Info("a.1.base.rdb", 1, BASE_TYPE)), [Info("a.1.incr.aof", 1, HIST_TYPE)], [], 1, 1, false)

  /** A restart after such a rewrite: the next incremental file takes a name that the history still lists. */
  lemma ForgottenNumberReused()
    ensures ApplyEdits(EMPTY, REWRITTEN_OFF, "a") == AFTER_OFF
    ensures ByteNames(Entries(AFTER_OFF))
    ensures LoadManifest(Print(AFTER_OFF)) == Loaded(AFTER_OFF.(currIncrSeq := 0))
    ensures NewIncr(AFTER_OFF.(currIncrSeq := 0), "a").incr[0].name == AFTER_OFF.history[0].name
  {
    hide LoadManifest, Print, Sane, NameIntact, LinesFit;
    OffEdits();
    OffFits();
    EmptySane();
    EditsSane(EMPTY, REWRITTEN_OFF, "a");
    ForgottenNumber(AFTER_OFF, "a");
    OneName();
  }

  lemma OneName()
    ensures IncrName("a", 1) == "a.1.incr.aof" && BaseName("a", 1, true) == "a.1.base.rdb"
  {
    assert Dec(1) == "1";
    assert DecInt(1) == "1";
  }

  lemma OffFits()
    ensures LinesFit(AFTER_OFF) && Entries(AFTER_OFF) != []
  {
    hide FormatInfo, Field;
    var b, h := AFTER_OFF.base.value, AFTER_OFF.history[0];
    assert Entries(AFTER_OFF) == [b, h];
    ShortLine(b);
    ShortLine(h);
  }

  lemma EmptySane()
    ensures IsByteString("a") && NameIntact("a") && Sane(EMPTY, "a")
  {
  }

  lemma ShortLine(ai: Info)
    requires EntryShape(ai) && PlainText(ai.name) && |ai.name| == 12 && ai.fileSeq == 1
    ensures |FormatInfo(ai)| <= MANIFEST_MAX_LINE
  {
    FormatShape(ai);
    PlainReadable(ai.name);
    assert Dec(1) == "1";
  }

  lemma OffEdits()
    ensures ApplyEdits(EMPTY, REWRITTEN_OFF, "a") == AFTER_OFF
  {
    hide ApplyEdits, BaseName, IncrName;
    FourEdits(AddIncrFile, AddBaseFile(true), MarkRewrittenFiles(false), Persist, "a");
    OneName();
    var a2 := NewBase(NewIncr(EMPTY, "a"), "a", true);
    assert a2.incr == [Info("a.1.incr.aof", 1, INCR_TYPE)];
    assert MarkRewritten(a2, false).history == [Info("a.1.incr.aof", 1, HIST_TYPE)];
  }

  lemma FourEdits(e1: Edit, e2: Edit, e3: Edit, e4: Edit, aofName: string)
    ensures ApplyEdits(EMPTY, [e1, e2, e3, e4], aofName)
            == ApplyEdit(ApplyEdit(ApplyEdit(ApplyEdit(EMPTY, e1, aofName), e2, aofName), e3, aofName), e4, aofName)
  {
    hide ApplyEdit;
    var es := [e1, e2, e3, e4];
    assert es[1..] == [e2, e3, e4] && es[1..][1..] == [e3, e4] && es[1..][1..][1..] == [e4];
    var a1 := ApplyEdit(EMPTY, e1, aofName);
    var a2 := ApplyEdit(a1, e2, aofName);
    var a3 := ApplyEdit(a2, e3, aofName);
    var a4 := ApplyEdit(a3, e4, aofName);
    assert ApplyEdits(a4, [], aofName) == a4;
    assert [e4][1..] == [];
    assert ApplyEdits(a3, [e4], aofName) == a4;
    assert ApplyEdits(a2, [e3, e4], aofName) == a4;
    assert ApplyEdits(a1, [e2, e3, e4], aofName) == a4;
  }

  /**
   Whatever edits led to a manifest, with the AOF on or off: a server that
   starts from its text works with the same base, history and incremental
   files and the same numbers exactly when the manifest lists a file, the
   configured name is intact, the lines fit, and the incremental number can be
   read off the incremental files.
   */
  lemma ReachableRoundTrip(es: seq<Edit>, aofName: string)
    requires IsByteString(aofName)
    ensures var am := ApplyEdits(EMPTY, es, aofName);
            && ByteNames(Entries(am))
            && (LoadManifest(Print(am)) == Loaded(am.(dirty := false))
                <==> Entries(am) != [] && NameIntact(aofName) && LinesFit(am) && Recoverable(am))
  {
    EditsSane(EMPTY, es, aofName);
    SaneRoundTrip(ApplyEdits(EMPTY, es, aofName), aofName);
  }
}
