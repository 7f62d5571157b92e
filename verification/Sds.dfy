/**
 C strings and the sds helpers that the ACL and AOF code share: decimal
 printing and parsing, the quoted representation of a byte string, and the
 argument splitter that reads it back (sds.c).

 A byte string is a Dafny string whose characters are below 256.
 */
module Sds {

  datatype Option<+T> = None | Some(value: T)

  predicate IsByteString(s: string) {
    forall i :: 0 <= i < |s| ==> s[i] as int < 256
  }

  /** The character a C pointer sees: a terminator past the end. */
  function At(s: string, p: nat): char {
    if p < |s| then s[p] else '\0'
  }

  predicate IsSpace(c: char) {
    c == ' ' || 9 <= c as int <= 13
  }

  predicate IsPrint(c: char) {
    32 <= c as int <= 126
  }

  predicate IsDigit(c: char) {
    '0' <= c <= '9'
  }

  /** What a C string function sees of a buffer: the part before the first terminator. */
  function CStr(s: string): (r: string)
    ensures '\0' !in s ==> r == s
  {
    if s == "" || s[0] == '\0' then "" else [s[0]] + CStr(s[1..])
  }

  function Lower(c: char): char {
    if 'A' <= c <= 'Z' then (c as int + 32) as char else c
  }

  function ToLower(s: string): (r: string)
    ensures |r| == |s|
    ensures forall i :: 0 <= i < |s| ==> r[i] == Lower(s[i])
  {
    seq(|s|, i requires 0 <= i < |s| => Lower(s[i]))
  }

  lemma ToLowerIdempotent(s: string)
    ensures ToLower(ToLower(s)) == ToLower(s)
  {
  }

  /** strcasecmp(a, b) == 0 */
  predicate SameCase(a: string, b: string) {
    ToLower(CStr(a)) == ToLower(CStr(b))
  }

  // ----- decimal numbers -----

  function Digit(d: nat): (c: char)
    requires d < 10
    ensures IsDigit(c) && c as int - '0' as int == d
  {
    ('0' as int + d) as char
  }

  /** ll2string and %lld for a non-negative number. */
  function Dec(n: nat): (s: string)
    ensures s != ""
    ensures forall i :: 0 <= i < |s| ==> IsDigit(s[i])
  {
    if n < 10 then [Digit(n)] else Dec(n / 10) + [Digit(n % 10)]
  }

  /** %lld */
  function DecInt(n: int): string {
    if n < 0 then "-" + Dec(-n) else Dec(n)
  }

  /** The digit loop shared by atoi, atoll and strtol. */
  function ParseDigits(s: string, acc: nat): nat {
    if s == "" || !IsDigit(s[0]) then acc
    else ParseDigits(s[1..], acc * 10 + (s[0] as int - '0' as int))
  }

  function SkipSpaces(s: string): (r: string)
    ensures |r| <= |s|
    ensures s != "" && !IsSpace(s[0]) ==> r == s
  {
    if s != "" && IsSpace(s[0]) then SkipSpaces(s[1..]) else s
  }

  /** atoi, atoll and strtol(.., 10), away from their overflow cases. */
  function Atoll(s: string): int {
    var t := SkipSpaces(s);
    if t == "" then 0
    else if t[0] == '-' then -(ParseDigits(t[1..], 0) as int)
    else if t[0] == '+' then ParseDigits(t[1..], 0)
    else ParseDigits(t, 0)
  }

  lemma {:induction false} ParseDec(n: nat, post: string)
    requires post == "" || !IsDigit(post[0])
    ensures ParseDigits(Dec(n) + post, 0) == n
    decreases n
  {
    if n < 10 {
      assert (Dec(n) + post)[1..] == post;
    } else {
      var tail := [Digit(n % 10)] + post;
      assert Dec(n) + post == Dec(n / 10) + tail;
      ParseDigitsSplit(Dec(n / 10), tail, 0);
      assert Dec(n / 10) + "" == Dec(n / 10);
      ParseDec(n / 10, "");
      assert tail[1..] == post;
    }
  }

  lemma {:induction false} ParseDigitsSplit(a: string, b: string, acc: nat)
    requires forall i :: 0 <= i < |a| ==> IsDigit(a[i])
    ensures ParseDigits(a + b, acc) == ParseDigits(b, ParseDigits(a, acc))
  {
    if a == "" {
      assert a + b == b;
    } else {
      assert (a + b)[1..] == a[1..] + b;
      ParseDigitsSplit(a[1..], b, acc * 10 + (a[0] as int - '0' as int));
    }
  }

  /** Printing a number and reading it back gives the number, whatever follows the digits. */
  lemma AtollDec(n: nat, post: string)
    requires post == "" || !IsDigit(post[0])
    ensures Atoll(Dec(n) + post) == n
  {
    var s := Dec(n) + post;
    assert s[0] == Dec(n)[0];
    ParseDec(n, post);
  }

  lemma DecInjective(m: nat, n: nat)
    requires Dec(m) == Dec(n)
    ensures m == n
  {
    AtollDec(m, "");
    AtollDec(n, "");
    assert Dec(m) + "" == Dec(m);
  }

  // ----- quoted representation and its reader -----

  function HexDigit(d: nat): char
    requires d < 16
  {
    if d < 10 then ('0' as int + d) as char else ('a' as int + d - 10) as char
  }

  predicate IsHexDigit(c: char) {
    '0' <= c <= '9' || 'a' <= c <= 'f' || 'A' <= c <= 'F'
  }

  function HexValue(c: char): (v: nat)
    ensures v < 16
  {
    if '0' <= c <= '9' then c as int - '0' as int
    else if 'a' <= c <= 'f' then c as int - 'a' as int + 10
    else if 'A' <= c <= 'F' then c as int - 'A' as int + 10
    else 0
  }

  /** One character of sdscatrepr. */
  function Escape(c: char): string
    requires c as int < 256
  {
    if c == '\\' || c == '"' then ['\\', c]
    else if c == '\n' then "\\n"
    else if c == '\r' then "\\r"
    else if c == '\t' then "\\t"
    else if c as int == 7 then "\\a"
    else if c as int == 8 then "\\b"
    else if IsPrint(c) then [c]
    else ['\\', 'x', HexDigit(c as int / 16), HexDigit(c as int % 16)]
  }

  function EscapeAll(s: string): string
    requires IsByteString(s)
  {
    if s == "" then "" else Escape(s[0]) + EscapeAll(s[1..])
  }

  /** sdscatrepr onto an empty string. */
  function Repr(s: string): string
    requires IsByteString(s)
  {
    "\"" + EscapeAll(s) + "\""
  }

  predicate NeedsReprChar(c: char) {
    c == '\\' || c == '"' || !IsPrint(c) || IsSpace(c)
  }

  /** sdsneedsrepr: note that a single quote is not on its list. */
  predicate NeedsRepr(s: string) {
    exists i :: 0 <= i < |s| && NeedsReprChar(s[i])
  }

  datatype Mode = Unquoted | Quoted | Single

  function Unescape(c: char): char {
    if c == 'n' then '\n'
    else if c == 'r' then '\r'
    else if c == 't' then '\t'
    else if c == 'b' then 8 as char
    else if c == 'a' then 7 as char
    else c
  }

  /**
   The inner loop of sdssplitargs: read one token from the front of `r`, in
   the given quoting mode and with `cur` read so far. Gives the token and
   what follows it, or None for unbalanced or badly closed quotes.
   */
  function Token(r: string, mode: Mode, cur: string): (t: Option<(string, string)>)
    ensures t.Some? ==> |t.value.1| <= |r|
    ensures t.Some? && (mode != Unquoted || At(r, 0) != '\0') ==> |t.value.1| < |r|
    decreases |r|
  {
    var c := At(r, 0);
    match mode
    case Quoted =>
      if c == '\\' && At(r, 1) == 'x' && IsHexDigit(At(r, 2)) && IsHexDigit(At(r, 3)) then
        Token(r[4..], Quoted, cur + [(HexValue(r[2]) * 16 + HexValue(r[3])) as char])
      else if c == '\\' && At(r, 1) != '\0' then
        Token(r[2..], Quoted, cur + [Unescape(r[1])])
      else if c == '"' then
        if At(r, 1) != '\0' && !IsSpace(At(r, 1)) then None else Some((cur, r[1..]))
      else if c == '\0' then None
      else Token(r[1..], Quoted, cur + [c])
    case Single =>
      if c == '\\' && At(r, 1) == '\'' then
        Token(r[2..], Single, cur + ['\''])
      else if c == '\'' then
        if At(r, 1) != '\0' && !IsSpace(At(r, 1)) then None else Some((cur, r[1..]))
      else if c == '\0' then None
      else Token(r[1..], Single, cur + [c])
    case Unquoted =>
      if c == '\0' then Some((cur, r))
      else if c == ' ' || c == '\n' || c == '\r' || c == '\t' then Some((cur, r[1..]))
      else if c == '"' then Token(r[1..], Quoted, cur)
      else if c == '\'' then Token(r[1..], Single, cur)
      else Token(r[1..], Unquoted, cur + [c])
  }

  /** sdssplitargs: None stands for the NULL it returns on bad quoting. */
  function SplitArgs(r: string): Option<seq<string>>
    decreases |r|
  {
    var p := SkipSpaces(r);
    if At(p, 0) == '\0' then Some([])
    else
      match Token(p, Unquoted, "")
      case None => None
      case Some((tok, rest)) =>
        match SplitArgs(rest)
        case None => None
        case Some(toks) => Some([tok] + toks)
  }

  // ----- what the splitter makes of printed text -----

  predicate PlainChar(c: char) {
    !NeedsReprChar(c) && c != '\''
  }

  predicate PlainText(s: string) {
    forall i :: 0 <= i < |s| ==> PlainChar(s[i])
  }

  /** A character that the splitter copies as it is outside quotes. */
  predicate CleanChar(c: char) {
    c != ' ' && c != '\n' && c != '\r' && c != '\t' && c != '\0' && c != '"' && c != '\''
  }

  predicate CleanText(s: string) {
    forall i :: 0 <= i < |s| ==> CleanChar(s[i])
  }

  lemma PlainIsClean(s: string)
    requires PlainText(s)
    ensures CleanText(s)
  {
    assert forall i :: 0 <= i < |s| ==> PlainChar(s[i]);
  }

  predicate BlankOrEnd(post: string) {
    post == "" || post[0] == ' '
  }

  /** Reading back one escaped character inside double quotes. */
  lemma TokenEscape(c: char, rest: string, cur: string)
    requires c as int < 256
    ensures Token(Escape(c) + rest, Quoted, cur) == Token(rest, Quoted, cur + [c])
  {
    var r := Escape(c) + rest;
    var e := Escape(c);
    assert forall i :: 0 <= i < |e| ==> r[i] == e[i];
    assert r[|e|..] == rest;
    if c != '\\' && c != '"' && c != '\n' && c != '\r' && c != '\t' && c as int != 7 && c as int != 8 && !IsPrint(c) {
      assert HexValue(HexDigit(c as int / 16)) == c as int / 16;
      assert HexValue(HexDigit(c as int % 16)) == c as int % 16;
    }
  }

  lemma EscapeNothing()
    ensures EscapeAll("") == ""
  {
  }

  /** The splitter undoes sdscatrepr, for every byte string. */
  lemma {:induction false} TokenRepr(s: string, post: string, cur: string)
    requires IsByteString(s)
    requires BlankOrEnd(post)
    ensures Token(EscapeAll(s) + "\"" + post, Quoted, cur) == Some((cur + s, post))
    decreases |s|
  {
    if s == "" {
      hide EscapeAll;
      EscapeNothing();
      var r := EscapeAll(s) + "\"" + post;
      assert r == "\"" + post;
      assert r[1..] == post;
      assert cur + s == cur;
    } else {
      hide Token, Escape;
      var rest := EscapeAll(s[1..]) + "\"" + post;
      assert EscapeAll(s) + "\"" + post == Escape(s[0]) + rest;
      TokenEscape(s[0], rest, cur);
      TokenRepr(s[1..], post, cur + [s[0]]);
      assert cur + [s[0]] + s[1..] == cur + s;
    }
  }

  /** A word without blanks or quotes reads back as itself. */
  lemma {:induction false} TokenClean(s: string, post: string, cur: string)
    requires CleanText(s)
    requires BlankOrEnd(post)
    ensures Token(s + post, Unquoted, cur) == Some((cur + s, if post == "" then "" else post[1..]))
    decreases |s|
  {
    if s == "" {
      assert s + post == post;
      assert cur + s == cur;
    } else {
      var r := s + post;
      assert CleanChar(s[0]);
      assert r[0] == s[0] && r[1..] == s[1..] + post;
      TokenClean(s[1..], post, cur + [s[0]]);
      assert cur + [s[0]] + s[1..] == cur + s;
    }
  }

  /** Words separated by single blanks. */
  function Join(ws: seq<string>): string {
    if |ws| == 0 then ""
    else if |ws| == 1 then ws[0]
    else ws[0] + " " + Join(ws[1..])
  }

  /** How aofInfoFormat writes a file name: quoted only when sdsneedsrepr asks for it. */
  function Field(s: string): string
    requires IsByteString(s)
  {
    if NeedsRepr(s) then Repr(s) else s
  }

  /** The strings that Field prints in a form the splitter reads back. */
  predicate Readable(s: string) {
    s != "" && IsByteString(s) && (NeedsRepr(s) || '\'' !in s)
  }

  lemma OpenQuote(x: string, cur: string)
    ensures Token("\"" + x, Unquoted, cur) == Token(x, Quoted, cur)
  {
    assert ("\"" + x)[1..] == x;
  }

  lemma FieldToken(s: string, post: string)
    requires Readable(s)
    requires BlankOrEnd(post)
    ensures var f := Field(s);
            f != "" && !IsSpace(f[0]) && f[0] != '\0'
    ensures var t := Token(Field(s) + post, Unquoted, "");
            t.Some? && t.value.0 == s && SkipSpaces(t.value.1) == SkipSpaces(post)
  {
    hide Token, EscapeAll;
    if NeedsRepr(s) {
      ReprToken(s, post);
    } else {
      assert forall i :: 0 <= i < |s| ==> s[i] in s && !NeedsReprChar(s[i]);
      PlainIsClean(s);
      TokenClean(s, post, "");
      assert "" + s == s;
    }
  }

  lemma ReprToken(s: string, post: string)
    requires IsByteString(s)
    requires BlankOrEnd(post)
    ensures Token(Repr(s) + post, Unquoted, "") == Some((s, post))
  {
    hide Token, EscapeAll;
    var body := EscapeAll(s) + "\"" + post;
    assert Repr(s) + post == "\"" + body;
    OpenQuote(body, "");
    TokenRepr(s, post, "");
    assert "" + s == s;
  }

  lemma SplitSkips(a: string, b: string)
    requires SkipSpaces(a) == SkipSpaces(b)
    ensures SplitArgs(a) == SplitArgs(b)
  {
  }

  /** One printed field at the front of a line, and then the rest of the line. */
  lemma SplitField(s: string, post: string)
    requires Readable(s)
    requires BlankOrEnd(post)
    ensures SplitArgs(Field(s) + post)
         == match SplitArgs(post) case None => None case Some(toks) => Some([s] + toks)
  {
    FieldToken(s, post);
    var f := Field(s) + post;
    assert f[0] == Field(s)[0];
    assert SkipSpaces(f) == f;
    SplitSkips(Token(f, Unquoted, "").value.1, post);
  }

  lemma SplitWord(s: string, rest: string)
    requires Readable(s)
    ensures SplitArgs(Field(s) + " " + rest)
         == match SplitArgs(rest) case None => None case Some(toks) => Some([s] + toks)
  {
    var post := " " + rest;
    assert Field(s) + " " + rest == Field(s) + post;
    SplitField(s, post);
    assert post[1..] == rest;
    SplitSkips(post, rest);
  }

  predicate AllReadable(ss: seq<string>) {
    forall i :: 0 <= i < |ss| ==> Readable(ss[i])
  }

  function Fields(ss: seq<string>): seq<string>
    requires AllReadable(ss)
  {
    seq(|ss|, i requires 0 <= i < |ss| => assert Readable(ss[i]); Field(ss[i]))
  }

  /** The argument splitter undoes printing, for any list of readable fields. */
  lemma {:induction false} SplitJoin(ss: seq<string>)
    requires AllReadable(ss)
    ensures SplitArgs(Join(Fields(ss))) == Some(ss)
    decreases |ss|
  {
    if |ss| == 0 {
    } else if |ss| == 1 {
      SplitField(ss[0], "");
      assert Join(Fields(ss)) == Field(ss[0]) + "";
      assert SplitArgs("") == Some([]);
      assert [ss[0]] + [] == ss;
    } else {
      hide SplitArgs, Field, Readable;
      var rest := Join(Fields(ss[1..]));
      SplitJoin(ss[1..]);
      SplitWord(ss[0], rest);
      assert Join(Fields(ss)) == Field(ss[0]) + " " + rest by {
        assert Fields(ss)[1..] == Fields(ss[1..]);
      }
      assert [ss[0]] + ss[1..] == ss;
    }
  }

  /** A word that the splitter finds again when it stands alone between blanks. */
  predicate CleanWord(w: string) {
    w != "" && !IsSpace(w[0]) && CleanText(w)
  }

  lemma SplitCleanWord(w: string, post: string)
    requires CleanWord(w)
    requires BlankOrEnd(post)
    ensures SplitArgs(w + post)
         == match SplitArgs(post) case None => None case Some(toks) => Some([w] + toks)
  {
    TokenClean(w, post, "");
    assert "" + w == w;
    var r := w + post;
    assert r[0] == w[0] && CleanChar(w[0]);
    assert SkipSpaces(r) == r;
    hide Token;
    if post != "" {
      SplitSkips(post[1..], post);
    }
  }

  /** Splitting clean words joined by blanks gives the words. */
  lemma {:induction false} SplitCleanWords(ws: seq<string>)
    requires forall i :: 0 <= i < |ws| ==> CleanWord(ws[i])
    ensures SplitArgs(Join(ws)) == Some(ws)
    decreases |ws|
  {
    if |ws| == 0 {
    } else if |ws| == 1 {
      SplitCleanWord(ws[0], "");
      assert Join(ws) == ws[0] + "";
      assert SplitArgs("") == Some([]);
      assert [ws[0]] + [] == ws;
    } else {
      hide SplitArgs, CleanWord;
      var rest := Join(ws[1..]);
      SplitCleanWords(ws[1..]);
      SplitCleanWord(ws[0], " " + rest);
      assert (" " + rest)[1..] == rest;
      SplitSkips(" " + rest, rest);
      assert Join(ws) == ws[0] + (" " + rest);
      assert [ws[0]] + ws[1..] == ws;
    }
  }

  /**
   An unquoted word holding a single quote is never read back as itself:
   the quote opens a quoted section, and is either left open or dropped.
   */
  lemma {:induction false} TokenSingleQuote(s: string, post: string, mode: Mode, cur: string)
    requires forall i :: 0 <= i < |s| ==> !NeedsReprChar(s[i])
    requires mode == Single || (mode == Unquoted && '\'' in s)
    requires post != "" && post[0] == ' ' && '\'' !in post
    ensures var t := Token(s + post, mode, cur);
            t.Some? ==> |t.value.0| < |cur| + |s| && t.value.1 == post
    decreases |s|
  {
    if s == "" {
      assert s + post == post;
      SingleUnterminated(post, cur);
    } else {
      var r := s + post;
      assert r[0] == s[0] && r[1..] == s[1..] + post;
      if mode == Unquoted && s[0] == '\'' {
        TokenSingleQuote(s[1..], post, Single, cur);
      } else if mode == Unquoted {
        TokenSingleQuote(s[1..], post, Unquoted, cur + [s[0]]);
      } else if s[0] == '\'' {
        if |s| > 1 {
          assert !NeedsReprChar(s[1]) && r[1] == s[1];
        } else {
          assert s[1..] + post == post;
        }
      } else {
        TokenSingleQuote(s[1..], post, Single, cur + [s[0]]);
      }
    }
  }

  lemma {:induction false} SingleUnterminated(r: string, cur: string)
    requires '\'' !in r
    ensures Token(r, Single, cur) == None
    decreases |r|
  {
    if r != "" && r[0] != '\0' {
      if |r| > 1 { assert r[1] in r; }
      assert r[0] in r;
      SingleUnterminated(r[1..], cur + [r[0]]);
    }
  }
}
