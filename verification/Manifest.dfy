/**
 The AOF manifest (aof.c): the record of base, history and incremental files,
 the functions that edit it, its text form and the strict loader of that text.
 */
module Manifest {
  import opened Sds

  const BASE_TYPE: char := 'b'
  const HIST_TYPE: char := 'h'
  const INCR_TYPE: char := 'i'

  const MANIFEST_MAX_LINE: nat := 1024

  datatype Info = Info(name: string, fileSeq: int, fileType: char)

  datatype Manifest = Manifest(
    base: Option<Info>,
    history: seq<Info>,
    incr: seq<Info>,
    currBaseSeq: int,
    currIncrSeq: int,
    dirty: bool)

  const EMPTY := Manifest(None, [], [], 0, 0, false)

  // ----- names and editing -----

  /** `aof_filename`.seq.base.aof, or .rdb with an RDB preamble. */
  function BaseName(aofName: string, fileSeq: int, rdb: bool): string {
    aofName + "." + DecInt(fileSeq) + ".base" + (if rdb then ".rdb" else ".aof")
  }

  function IncrName(aofName: string, fileSeq: int): string {
    aofName + "." + DecInt(fileSeq) + ".incr" + ".aof"
  }

  /** getNewBaseFileNameAndMarkPreAsHistory */
  function NewBase(am: Manifest, aofName: string, rdb: bool): Manifest {
    var n := am.currBaseSeq + 1;
    var history := if am.base.Some? then [am.base.value.(fileType := HIST_TYPE)] + am.history else am.history;
    am.(base := Some(Info(BaseName(aofName, n, rdb), n, BASE_TYPE)),
        history := history,
        currBaseSeq := n,
        dirty := true)
  }

  /** getNewIncrAofName */
  function NewIncr(am: Manifest, aofName: string): Manifest {
    var n := am.currIncrSeq + 1;
    am.(incr := am.incr + [Info(IncrName(aofName, n), n, INCR_TYPE)],
        currIncrSeq := n,
        dirty := true)
  }

  function AsHistory(infos: seq<Info>): (r: seq<Info>)
    ensures |r| == |infos|
  {
    seq(|infos|, i requires 0 <= i < |infos| => infos[i].(fileType := HIST_TYPE))
  }

  /**
   markRewrittenIncrAofAsHistory. While the AOF is open its last incremental
   file is the one being written and is kept.
   */
  function MarkRewritten(am: Manifest, aofOpen: bool): Manifest {
    if am.incr == [] then am
    else
      var keep := if aofOpen then |am.incr| - 1 else |am.incr|;
      am.(history := AsHistory(am.incr[..keep]) + am.history,
          incr := am.incr[keep..],
          dirty := true)
  }

  /** A manifest object, edited in place. */
  class AofManifest {
    var base: Option<Info>
    var history: seq<Info>
    var incr: seq<Info>
    var currBaseSeq: int
    var currIncrSeq: int
    var dirty: bool

    function View(): Manifest
      reads this
    {
      Manifest(base, history, incr, currBaseSeq, currIncrSeq, dirty)
    }

    /** aofManifestDup: a copy that later edits do not share with the original. */
    constructor Dup(orig: AofManifest)
      ensures View() == orig.View()
    {
      base, history, incr := orig.base, orig.history, orig.incr;
      currBaseSeq, currIncrSeq, dirty := orig.currBaseSeq, orig.currIncrSeq, orig.dirty;
    }

    method GetNewBaseFileNameAndMarkPreAsHistory(aofName: string, rdb: bool) returns (name: string)
      modifies this
      ensures View() == NewBase(old(View()), aofName, rdb)
      ensures base == Some(Info(name, old(currBaseSeq) + 1, BASE_TYPE))
    {
      if base.Some? {
        history := [base.value.(fileType := HIST_TYPE)] + history;
      }
      currBaseSeq := currBaseSeq + 1;
      name := BaseName(aofName, currBaseSeq, rdb);
      base := Some(Info(name, currBaseSeq, BASE_TYPE));
      dirty := true;
    }

    method GetNewIncrAofName(aofName: string) returns (name: string)
      modifies this
      ensures View() == NewIncr(old(View()), aofName)
      ensures |incr| > 0 && incr[|incr| - 1].name == name
    {
      currIncrSeq := currIncrSeq + 1;
      name := IncrName(aofName, currIncrSeq);
      incr := incr + [Info(name, currIncrSeq, INCR_TYPE)];
      dirty := true;
    }

    /** Walks the incremental files from the tail, moving each to the head of the history. */
    method MarkRewrittenIncrAofAsHistory(aofOpen: bool)
      modifies this
      ensures View() == MarkRewritten(old(View()), aofOpen)
    {
      if incr == [] {
        return;
      }
      ghost var all := incr;
      ghost var h0 := history;
      var skip := if aofOpen then 1 else 0;
      var i := |incr| - skip;
      ghost var keep := i;
      while i > 0
        invariant 0 <= i <= keep <= |all|
        invariant incr == all[..i] + all[keep..]
        invariant history == AsHistory(all[i..keep]) + h0
        invariant base == old(base) && currBaseSeq == old(currBaseSeq) && currIncrSeq == old(currIncrSeq)
      {
        var ai := incr[i - 1];
        history := [ai.(fileType := HIST_TYPE)] + history;
        assert AsHistory(all[i - 1..keep]) == [ai.(fileType := HIST_TYPE)] + AsHistory(all[i..keep]);
        incr := incr[..i - 1] + incr[i..];
        i := i - 1;
      }
      assert all[0..keep] == all[..keep];
      assert incr == all[keep..];
      dirty := true;
    }
  }

  // ----- text form -----

  /** aofInfoFormat: one line of the manifest. */
  function FormatInfo(ai: Info): string
    requires IsByteString(ai.name)
  {
    "file " + Field(ai.name) + " seq " + DecInt(ai.fileSeq) + " type " + [ai.fileType] + "\n"
  }

  predicate ByteNames(infos: seq<Info>) {
    forall i :: 0 <= i < |infos| ==> IsByteString(infos[i].name)
  }

  function FormatAll(infos: seq<Info>): string
    requires ByteNames(infos)
  {
    if infos == [] then "" else FormatInfo(infos[0]) + FormatAll(infos[1..])
  }

  /** Every entry in the order it is printed. */
  function Entries(am: Manifest): seq<Info> {
    (if am.base.Some? then [am.base.value] else []) + am.history + am.incr
  }

  /** getAofManifestAsString */
  function Print(am: Manifest): string
    requires ByteNames(Entries(am))
  {
    FormatAll(Entries(am))
  }

  // ----- loader -----

  datatype LoadError =
    | EmptyManifest | TooLongLine | BadFormat | NotABaseName
    | DuplicateBase | NonMonotonic | UnknownType

  datatype LoadResult = Loaded(am: Manifest) | Fatal(error: LoadError)

  /** Number of characters fgets(buf, max + 1, fp) takes from `s`. */
  function LineLen(s: string, max: nat): (n: nat)
    ensures n <= |s| && n <= max
    ensures s != "" && max > 0 ==> n > 0
    decreases max
  {
    if s == "" || max == 0 then 0
    else if s[0] == '\n' then 1
    else 1 + LineLen(s[1..], max - 1)
  }

  predicate TrimChar(c: char) {
    c == ' ' || c == '\t' || c == '\r' || c == '\n'
  }

  function TrimRight(s: string): string {
    if s != "" && TrimChar(s[|s| - 1]) then TrimRight(s[..|s| - 1]) else s
  }

  function TrimLeft(s: string): string {
    if s != "" && TrimChar(s[0]) then TrimLeft(s[1..]) else s
  }

  /** sdstrim(line, " \t\r\n") */
  function Trim(s: string): string {
    TrimLeft(TrimRight(s))
  }

  /** pathIsBaseName */
  predicate IsBaseName(s: string) {
    '/' !in s && '\\' !in s
  }

  datatype Parsed = BadPath | Parsed(name: Option<string>, fileSeq: int, fileType: char)

  function SetPair(p: Parsed, key: string, val: string): Parsed {
    if p.BadPath? then p
    else if SameCase(key, "file") then
      if IsBaseName(CStr(val)) then p.(name := Some(CStr(val))) else BadPath
    else if SameCase(key, "seq") then p.(fileSeq := Atoll(val))
    else if SameCase(key, "type") then p.(fileType := At(val, 0))
    else p
  }

  /** The key/value loop over one line: unknown keys are skipped, a later key overrides. */
  function ParsePairs(argv: seq<string>, p: Parsed): Parsed
    decreases |argv|
  {
    if |argv| < 2 then p else ParsePairs(argv[2..], SetPair(p, argv[0], argv[1]))
  }

  datatype Line = Entry(ai: Info) | Bad(error: LoadError)

  /** A line that is not a comment, as an entry or a fatal error. */
  function ParseLine(buf: string): Line {
    if '\n' !in CStr(buf) then Bad(TooLongLine)
    else
      var line := Trim(CStr(buf));
      if line == "" then Bad(BadFormat)
      else
        match SplitArgs(line)
        case None => Bad(BadFormat)
        case Some(argv) =>
          if |argv| < 6 || |argv| % 2 != 0 then Bad(BadFormat)
          else
            match ParsePairs(argv, Parsed(None, 0, '\0'))
            case BadPath => Bad(NotABaseName)
            case Parsed(name, q, t) =>
              if name.None? || q == 0 || t == '\0' then Bad(BadFormat)
              else Entry(Info(name.value, q, t))
  }

  /**
   Filing one entry. The sequence numbers of incremental files must grow, and
   the current incremental number is the last one accepted.
   */
  function AddEntry(am: Manifest, ai: Info): LoadResult {
    if ai.fileType == BASE_TYPE then
      if am.base.Some? then Fatal(DuplicateBase)
      else Loaded(am.(base := Some(ai), currBaseSeq := ai.fileSeq))
    else if ai.fileType == HIST_TYPE then
      Loaded(am.(history := am.history + [ai]))
    else if ai.fileType == INCR_TYPE then
      if ai.fileSeq <= am.currIncrSeq then Fatal(NonMonotonic)
      else Loaded(am.(incr := am.incr + [ai], currIncrSeq := ai.fileSeq))
    else Fatal(UnknownType)
  }

  /** The lines of the file from `s` on, filed into `am`. */
  function LoadFrom(s: string, am: Manifest): LoadResult
    decreases |s|
  {
    if s == "" then Loaded(am)
    else
      var n := LineLen(s, MANIFEST_MAX_LINE);
      var buf := s[..n];
      if buf[0] == '#' then LoadFrom(s[n..], am)
      else
        match ParseLine(buf)
        case Bad(e) => Fatal(e)
        case Entry(ai) =>
          match AddEntry(am, ai)
          case Fatal(e) => Fatal(e)
          case Loaded(am') => LoadFrom(s[n..], am')
  }

  /** aofLoadManifestFromFile on the contents of the file. */
  function LoadManifest(text: string): LoadResult {
    if text == "" then Fatal(EmptyManifest) else LoadFrom(text, EMPTY)
  }

  /** aofLoadManifestFromFile: read line by line, stopping at the first error. */
  method AofLoadManifestFromFile(text: string) returns (r: LoadResult)
    ensures r == LoadManifest(text)
  {
    var am := EMPTY;
    var rest := text;
    var linenum := 0;
    while true
      invariant linenum == 0 ==> rest == text && am == EMPTY
      invariant linenum > 0 ==> text != "" && LoadFrom(rest, am) == LoadManifest(text)
      decreases |rest|
    {
      if rest == "" {
        if linenum == 0 {
          return Fatal(EmptyManifest);
        }
        return Loaded(am);
      }
      linenum := linenum + 1;
      var n := LineLen(rest, MANIFEST_MAX_LINE);
      var buf := rest[..n];
      var next := rest[n..];
      if buf[0] != '#' {
        var line := ParseLine(buf);
        if line.Bad? {
          return Fatal(line.error);
        }
        var filed := AddEntry(am, line.ai);
        if filed.Fatal? {
          return filed;
        }
        am := filed.am;
      }
      rest := next;
    }
  }

  // ----- one line round trip -----

  predicate Printable(s: string) {
    forall i :: 0 <= i < |s| ==> IsPrint(s[i])
  }

  lemma EscapePrintable(c: char)
    requires c as int < 256
    ensures Printable(Escape(c))
  {
  }

  lemma {:induction false} EscapeAllPrintable(s: string)
    requires IsByteString(s)
    ensures Printable(EscapeAll(s))
    decreases |s|
  {
    if s != "" {
      EscapePrintable(s[0]);
      EscapeAllPrintable(s[1..]);
    }
  }

  lemma FieldPrintable(s: string)
    requires IsByteString(s)
    ensures Printable(Field(s))
  {
    if NeedsRepr(s) {
      EscapeAllPrintable(s);
    } else {
      assert forall i :: 0 <= i < |s| ==> !NeedsReprChar(s[i]);
    }
  }

  predicate EntryType(t: char) {
    t == BASE_TYPE || t == HIST_TYPE || t == INCR_TYPE
  }

  /** What the loader asks of an entry besides its name. */
  predicate EntryShape(ai: Info) {
    IsByteString(ai.name) && ai.fileSeq > 0 && EntryType(ai.fileType)
  }

  function Tail(ai: Info): string
    requires ai.fileSeq >= 0
  {
    " seq " + Dec(ai.fileSeq) + " type " + [ai.fileType]
  }

  lemma FormatShape(ai: Info)
    requires EntryShape(ai)
    ensures FormatInfo(ai) == "file " + Field(ai.name) + Tail(ai) + "\n"
    ensures Printable("file " + Field(ai.name) + Tail(ai))
  {
    FieldPrintable(ai.name);
  }

  /** The terminator and the newline play no part in reading a printed line. */
  lemma ParseFormatted(ai: Info)
    requires EntryShape(ai)
    ensures var line := "file " + Field(ai.name) + Tail(ai);
            ParseLine(FormatInfo(ai)) ==
            match SplitArgs(line)
            case None => Bad(BadFormat)
            case Some(argv) =>
              if |argv| < 6 || |argv| % 2 != 0 then Bad(BadFormat)
              else
                match ParsePairs(argv, Parsed(None, 0, '\0'))
                case BadPath => Bad(NotABaseName)
                case Parsed(name, q, t) =>
                  if name.None? || q == 0 || t == '\0' then Bad(BadFormat)
                  else Entry(Info(name.value, q, t))
  {
    var line := "file " + Field(ai.name) + Tail(ai);
    var buf := line + "\n";
    FormatShape(ai);
    assert buf[|buf| - 1] == '\n';
    assert CStr(buf) == buf;
    assert buf[..|buf| - 1] == line;
    assert line[|line| - 1] == ai.fileType;
    assert line[0] == 'f';
    assert TrimRight(line) == line;
    assert TrimRight(buf) == TrimRight(line);
    assert Trim(buf) == line;
    hide SplitArgs, ParsePairs;
  }

  lemma TailSplits(ai: Info)
    requires EntryShape(ai)
    ensures SplitArgs(Tail(ai)) == Some(["seq", Dec(ai.fileSeq), "type", [ai.fileType]])
    ensures '\'' !in Tail(ai)
  {
    hide SplitArgs;
    var t, d := [ai.fileType], Dec(ai.fileSeq);
    SplitPlain("seq", d + " type " + t);
    SplitPlain(d, "type " + t);
    assert d + " type " + t == d + " " + ("type " + t);
    SplitPlain("type", t);
    assert "type " + t == "type" + " " + t;
    SplitLast(t);
    assert [d] + (["type"] + [t]) == [d, "type", t];
    assert ["seq"] + [d, "type", t] == ["seq", d, "type", t];
    var line := "seq" + " " + (d + " type " + t);
    assert Tail(ai)[1..] == line;
    SplitSkips(Tail(ai), line);
  }

  lemma SplitPlain(w: string, rest: string)
    requires w != "" && PlainText(w)
    ensures SplitArgs(w + " " + rest)
         == match SplitArgs(rest) case None => None case Some(toks) => Some([w] + toks)
  {
    hide SplitArgs;
    PlainReadable(w);
    SplitWord(w, rest);
  }

  lemma SplitLast(w: string)
    requires w != "" && PlainText(w)
    ensures SplitArgs(w) == Some([w])
  {
    PlainReadable(w);
    SplitField(w, "");
    assert Field(w) + "" == w;
    assert SplitArgs("") == Some([]);
    assert [w] + [] == [w];
  }

  lemma PlainReadable(s: string)
    requires s != "" && PlainText(s)
    ensures Readable(s) && Field(s) == s
  {
    assert forall i :: 0 <= i < |s| ==> PlainChar(s[i]);
  }

  /** The tokens of a printed line, when its name is printed in a readable form. */
  lemma LineSplits(ai: Info)
    requires EntryShape(ai)
    requires Readable(ai.name)
    ensures SplitArgs("file " + Field(ai.name) + Tail(ai))
         == Some(["file", ai.name, "seq", Dec(ai.fileSeq), "type", [ai.fileType]])
  {
    hide SplitArgs;
    TailSplits(ai);
    SplitField(ai.name, Tail(ai));
    hide Field, Tail;
    SplitPlain("file", Field(ai.name) + Tail(ai));
    assert "file " + Field(ai.name) + Tail(ai) == "file" + " " + (Field(ai.name) + Tail(ai));
    var tail := ["seq", Dec(ai.fileSeq), "type", [ai.fileType]];
    assert ["file"] + ([ai.name] + tail) == ["file", ai.name, "seq", Dec(ai.fileSeq), "type", [ai.fileType]];
  }

  lemma PairsOf(name: string, ai: Info)
    requires EntryShape(ai)
    ensures ParsePairs(["file", name, "seq", Dec(ai.fileSeq), "type", [ai.fileType]], Parsed(None, 0, '\0'))
         == if IsBaseName(CStr(name)) then Parsed(Some(CStr(name)), ai.fileSeq, ai.fileType) else BadPath
  {
    var p0 := Parsed(None, 0, '\0');
    var p1 := if IsBaseName(CStr(name)) then p0.(name := Some(CStr(name))) else BadPath;
    var p2 := if p1.BadPath? then p1 else p1.(fileSeq := ai.fileSeq);
    var p3 := if p2.BadPath? then p2 else p2.(fileType := ai.fileType);
    Keys();
    assert SetPair(p0, "file", name) == p1;
    assert SetPair(p1, "seq", Dec(ai.fileSeq)) == p2 by {
      AtollDec(ai.fileSeq, "");
      assert Dec(ai.fileSeq) + "" == Dec(ai.fileSeq);
    }
    assert SetPair(p2, "type", [ai.fileType]) == p3;
    hide SetPair;
    var argv := ["file", name, "seq", Dec(ai.fileSeq), "type", [ai.fileType]];
    var a1 := argv[2..];
    var a2 := a1[2..];
    assert a1[0] == "seq" && a1[1] == Dec(ai.fileSeq);
    assert a2[0] == "type" && a2[1] == [ai.fileType];
    assert ParsePairs(a2[2..], p3) == p3;
    assert ParsePairs(a2, p2) == p3;
    assert ParsePairs(a1, p1) == p3;
  }

  lemma Keys()
    ensures SameCase("file", "file") && SameCase("seq", "seq") && SameCase("type", "type")
    ensures !SameCase("seq", "file") && !SameCase("type", "file") && !SameCase("type", "seq")
  {
    assert |ToLower("seq")| != |ToLower("file")|;
    assert |ToLower("type")| != |ToLower("seq")|;
    assert ToLower("type")[0] != ToLower("file")[0];
  }

  /** A base name without terminator whose single quotes, if any, are protected by something else that needs quoting. */
  predicate NameIntact(name: string) {
    IsBaseName(name) && '\0' !in name && (NeedsRepr(name) || '\'' !in name)
  }

  /** The names that a manifest line carries unchanged. */
  predicate NameSurvives(name: string) {
    name != "" && NameIntact(name)
  }

  lemma CStrShorter(s: string)
    requires '\0' in s
    ensures |CStr(s)| < |s|
  {
  }

  lemma {:induction false} CStrLen(s: string)
    ensures |CStr(s)| <= |s|
    decreases |s|
  {
    if s != "" && s[0] != '\0' {
      CStrLen(s[1..]);
    }
  }

  /**
   Printing an entry and parsing the line gives the entry back exactly when
   its name survives: a base name without terminator whose single quotes, if
   any, are protected because something else makes the name need quoting. An
   entry read under another name is still of the same type.
   */
  lemma LineRoundTrip(ai: Info)
    requires EntryShape(ai)
    ensures ParseLine(FormatInfo(ai)) == Entry(ai) <==> NameSurvives(ai.name)
    ensures var l := ParseLine(FormatInfo(ai)); l.Entry? ==> l.ai.fileType == ai.fileType
  {
    hide SplitArgs, ParsePairs, ParseLine, CStr;
    ParseFormatted(ai);
    if Readable(ai.name) {
      LineSplits(ai);
      PairsOf(ai.name, ai);
      if '\0' in ai.name {
        CStrShorter(ai.name);
      }
    } else if ai.name == "" {
      TailSplits(ai);
      PlainReadable("file");
      SplitField("file", " " + Tail(ai));
      assert "file " + Field(ai.name) + Tail(ai) == Field("file") + (" " + Tail(ai));
      SplitSkips(" " + Tail(ai), Tail(ai)) by {
        assert (" " + Tail(ai))[1..] == Tail(ai);
      }
    } else {
      UnprotectedQuote(ai);
    }
  }

  lemma UnprotectedQuote(ai: Info)
    requires EntryShape(ai)
    requires !NeedsRepr(ai.name) && '\'' in ai.name
    ensures ParseLine(FormatInfo(ai)) != Entry(ai)
    ensures var l := ParseLine(FormatInfo(ai)); l.Entry? ==> l.ai.fileType == ai.fileType
  {
    hide ParsePairs, ParseLine, SplitArgs, Token, Tail;
    ParseFormatted(ai);
    SplitUnprotected(ai);
    var name, rest := ai.name, ai.name + Tail(ai);
    SplitPlain("file", rest);
    assert "file " + Field(name) + Tail(ai) == "file" + " " + rest;
    if SplitArgs(rest).Some? {
      var tok := SplitArgs(rest).value[0];
      assert ["file"] + SplitArgs(rest).value == ["file", tok, "seq", Dec(ai.fileSeq), "type", [ai.fileType]];
      PairsOf(tok, ai);
      CStrLen(tok);
    }
  }

  lemma SplitUnprotected(ai: Info)
    requires EntryShape(ai)
    requires !NeedsRepr(ai.name) && '\'' in ai.name
    ensures var s := SplitArgs(ai.name + Tail(ai));
            s.Some? ==>
              && |s.value| == 5
              && |s.value[0]| < |ai.name|
              && s.value[1..] == ["seq", Dec(ai.fileSeq), "type", [ai.fileType]]
  {
    var name := ai.name;
    TailSplits(ai);
    assert forall i :: 0 <= i < |name| ==> !NeedsReprChar(name[i]);
    TokenSingleQuote(name, Tail(ai), Unquoted, "");
    var r := name + Tail(ai);
    assert r[0] == name[0] && !NeedsReprChar(name[0]);
    hide Token, Tail;
    assert SkipSpaces(r) == r;
  }
}
