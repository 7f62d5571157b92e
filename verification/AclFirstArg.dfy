/**
 First arguments with blanks or quotes: the exact condition under which an
 operation leaves a selector whose retained rules rebuild it. The splitter
 that reads the rules never gives such an argument back.
 */
module AclFirstArg {
  import opened Sds
  import opened Acl
  import opened AclText
  import opened AclReplay
  import opened AclDescribe

  // ----- tokens are no longer than what they are read from -----

  /** Outside quotes a token is shorter than the text it takes, unless the text is clean to its end. */
  lemma {:induction false} TokenShort(r: string, mode: Mode, cur: string)
    requires '\0' !in r
    ensures var t := Token(r, mode, cur);
            t.Some? ==>
              && |t.value.0| + |t.value.1| <= |cur| + |r|
              && (mode != Unquoted || !CleanText(r) ==> |t.value.0| + |t.value.1| < |cur| + |r|)
              && '\0' !in t.value.1
    decreases |r|
  {
    if r != "" {
      assert r[0] in r;
      match mode
      case Quoted => QuotedShort(r, cur);
      case Single => SingleShort(r, cur);
      case Unquoted => UnquotedShort(r, cur);
    }
  }

  lemma {:induction false} QuotedShort(r: string, cur: string)
    requires '\0' !in r && r != ""
    ensures var t := Token(r, Quoted, cur);
            t.Some? ==> |t.value.0| + |t.value.1| < |cur| + |r| && '\0' !in t.value.1
    decreases |r|, 0
  {
    hide CleanText;
    if At(r, 0) == '\\' && At(r, 1) == 'x' && IsHexDigit(At(r, 2)) && IsHexDigit(At(r, 3)) {
      TokenShort(r[4..], Quoted, cur + [(HexValue(r[2]) * 16 + HexValue(r[3])) as char]);
    } else if At(r, 0) == '\\' && At(r, 1) != '\0' {
      TokenShort(r[2..], Quoted, cur + [Unescape(r[1])]);
    } else if At(r, 0) != '"' {
      TokenShort(r[1..], Quoted, cur + [r[0]]);
    }
  }

  lemma {:induction false} SingleShort(r: string, cur: string)
    requires '\0' !in r && r != ""
    ensures var t := Token(r, Single, cur);
            t.Some? ==> |t.value.0| + |t.value.1| < |cur| + |r| && '\0' !in t.value.1
    decreases |r|, 0
  {
    hide CleanText;
    if At(r, 0) == '\\' && At(r, 1) == '\'' {
      TokenShort(r[2..], Single, cur + ['\'']);
    } else if At(r, 0) != '\'' {
      TokenShort(r[1..], Single, cur + [r[0]]);
    }
  }

  lemma {:induction false} UnquotedShort(r: string, cur: string)
    requires '\0' !in r && r != ""
    ensures var t := Token(r, Unquoted, cur);
            t.Some? ==>
              && |t.value.0| + |t.value.1| <= |cur| + |r|
              && (!CleanText(r) ==> |t.value.0| + |t.value.1| < |cur| + |r|)
              && '\0' !in t.value.1
    decreases |r|, 0
  {
    assert r[0] in r;
    if r[0] == '"' {
      TokenShort(r[1..], Quoted, cur);
    } else if r[0] == '\'' {
      TokenShort(r[1..], Single, cur);
    } else if CleanChar(r[0]) {
      TokenShort(r[1..], Unquoted, cur + [r[0]]);
      CleanTail(r);
    }
  }

  lemma CleanTail(r: string)
    requires r != "" && CleanChar(r[0])
    ensures CleanText(r) == CleanText(r[1..])
  {
    assert forall i :: 1 <= i < |r| ==> r[i] == r[1..][i - 1];
  }

  /** No token of an unclean text is as long as the text. */
  lemma {:induction false} SplitShort(r: string)
    requires '\0' !in r && SplitArgs(r).Some?
    ensures forall i :: 0 <= i < |SplitArgs(r).value| ==>
              |SplitArgs(r).value[i]| <= |r| && (!CleanText(r) ==> |SplitArgs(r).value[i]| < |r|)
    decreases |r|
  {
    hide Token, CleanText;
    var p := SkipSpaces(r);
    SkipShort(r);
    if p != "" {
      assert p[0] in p;
      TokenShort(p, Unquoted, "");
      var t := Token(p, Unquoted, "");
      SplitShort(t.value.1);
    }
  }

  lemma {:induction false} SkipShort(r: string)
    requires '\0' !in r
    ensures var p := SkipSpaces(r); '\0' !in p && (p == r || |p| < |r|)
  {
    if r != "" && IsSpace(r[0]) {
      SkipShort(r[1..]);
    }
  }

  /** Clean words before a text are read as themselves. */
  lemma {:induction false} SplitAfterWords(ws: seq<string>, r: string)
    requires forall i :: 0 <= i < |ws| ==> CleanWord(ws[i])
    ensures SplitArgs(Lead(ws) + r)
            == match SplitArgs(r) case None => None case Some(toks) => Some(ws + toks)
    decreases |ws|
  {
    hide SplitArgs, CleanWord;
    if ws == [] {
      assert Lead(ws) + r == r;
      match SplitArgs(r) case None => case Some(toks) => assert ws + toks == toks;
    } else {
      var rest := Lead(ws[1..]) + r;
      SplitAfterWords(ws[1..], r);
      assert Lead(ws) + r == ws[0] + (" " + rest);
      SplitCleanWord(ws[0], " " + rest);
      assert (" " + rest)[1..] == rest;
      SplitSkips(" " + rest, rest);
      match SplitArgs(r)
      case None =>
      case Some(toks) => assert [ws[0]] + (ws[1..] + toks) == ws + toks;
    }
  }

  // ----- a first argument comes from one spelling only -----

  /** Ids of commands are not shared, as CommandIds hands them out. */
  predicate DistinctIds(t: Table) {
    forall k, m :: k in t.commands && m in t.commands && t.commands[k].id == t.commands[m].id ==> k == m
  }

  /** The operation that allows first argument `arg` of command `k` is +k|arg, up to case. */
  lemma FirstArgSpelling(t: Table, k: string, arg: string, op: string)
    requires TableOk(t) && DistinctIds(t) && k in t.commands
    requires op != ""
    requires var e := EffectOf(t, ToLower(op[1..]), op[0] == '+');
             e.Some? && (t.commands[k].id, arg) in e.value.adds
    ensures op[0] == '+' && ToLower(op[1..]) == k + "|" + arg
  {
    var name := ToLower(op[1..]);
    var f := Lookup(t, name);
    assert name[0] != '@' && f.NotFound?;
    var b := LastBar(name);
    var g := Lookup(t, name[..b]);
    TopSpelling(t, name[..b]);
    LowerPrefix(op[1..], b);
    CutAt(name, b);
  }

  lemma CutAt(name: string, b: nat)
    requires b < |name| && name[b] == '|'
    ensures name == name[..b] + "|" + name[b + 1..]
  {
    hide *;
  }

  lemma TopSpelling(t: Table, name: string)
    requires Lookup(t, name).Top?
    ensures ToLower(name) in t.commands && t.commands[ToLower(name)] == Lookup(t, name).cmd
  {
    assert name[..|name|] == name;
  }

  lemma LowerPrefix(s: string, b: nat)
    requires b <= |s|
    ensures ToLower(ToLower(s)[..b]) == ToLower(s)[..b]
  {
  }

  lemma LowerClean(s: string)
    ensures CleanText(ToLower(s)) == CleanText(s)
  {
    assert forall i :: 0 <= i < |s| ==> (CleanChar(ToLower(s)[i]) <==> CleanChar(s[i]));
  }

  /** An operation that does not spell the argument does not allow it. */
  lemma OtherOp(t: Table, s: Selector, k: string, arg: string, op: string)
    requires TableOk(t) && DistinctIds(t) && k in t.commands
    requires SetSelector(t, s, op).Done? && (t.commands[k].id, arg) !in Pairs(s.args)
    requires |op| < |k| + |arg| + 2 || (CleanText(op) && !CleanText(arg))
    ensures (t.commands[k].id, arg) !in Pairs(SetSelector(t, s, op).s.args)
  {
    hide TableOk, DistinctIds, CleanText, ToLower, EffectOf;
    if AllowAll(op) || AllowNone(op) {
      assert Pairs(map[]) == {};
    } else {
      DoneIsRule(t, s, op);
      hide SetSelector;
      SetSelectorEffect(t, s, op);
      var e := EffectOf(t, ToLower(op[1..]), op[0] == '+').value;
      if (t.commands[k].id, arg) in e.adds {
        FirstArgSpelling(t, k, arg, op);
        SpellingClean(k, arg, op);
      }
    }
  }

  lemma SpellingClean(k: string, arg: string, op: string)
    requires op != "" && ToLower(op[1..]) == k + "|" + arg
    ensures |op| == |k| + |arg| + 2 && (CleanText(op) ==> CleanText(arg))
  {
    hide CleanText;
    assert |ToLower(op[1..])| == |op| - 1;
    hide ToLower;
    if CleanText(op) {
      assert op == op[..1] + op[1..];
      CleanSuffix(op[..1], op[1..]);
      LowerClean(op[1..]);
      CleanSuffix(k + "|", arg);
    }
  }

  lemma CleanSuffix(a: string, b: string)
    requires CleanText(a + b)
    ensures CleanText(b)
  {
    assert forall i :: 0 <= i < |b| ==> b[i] == (a + b)[|a| + i];
  }

  lemma {:induction false} OtherOps(t: Table, s: Selector, k: string, arg: string, ops: seq<string>)
    requires TableOk(t) && DistinctIds(t) && k in t.commands
    requires (t.commands[k].id, arg) !in Pairs(s.args)
    requires forall i :: 0 <= i < |ops| ==> |ops[i]| < |k| + |arg| + 2 || (CleanText(ops[i]) && !CleanText(arg))
    ensures var r := ApplyOps(t, s, ops); r.Some? ==> (t.commands[k].id, arg) !in Pairs(r.value.args)
    decreases |ops|
  {
    hide TableOk, DistinctIds, CleanText, SetSelector, Pairs;
    if ops != [] && SetSelector(t, s, ops[0]).Done? {
      OtherOp(t, s, k, arg, ops[0]);
      OtherOps(t, SetSelector(t, s, ops[0]).s, k, arg, ops[1..]);
    }
  }

  // ----- the exact condition -----

  /** Recomputing the selector from its rules gives its permissions back. */
  predicate Rebuilds(t: Table, s: Selector) {
    var r := Recompute(t, s);
    r.Some? && PermsOf(r.value) == PermsOf(s)
  }

  /** What an accepted operation with a blank or a quote in it must be. */
  lemma UncleanIsFirstArg(t: Table, op: string)
    requires TableOk(t) && IsRuleOp(op) && !CleanText(op)
    requires EffectOf(t, ToLower(op[1..]), op[0] == '+').Some?
    ensures var name := ToLower(op[1..]);
            var b := LastBar(name);
            && op[0] == '+' && b < |name|
            && name[..b] in t.commands && !CleanText(name[b + 1..])
            && EffectOf(t, name, true).value == Effect({}, {}, {(t.commands[name[..b]].id, name[b + 1..])})
  {
    hide TableOk, CleanText, ToLower, EffectOf, LastBar, Lookup;
    var name := ToLower(op[1..]);
    NameUnclean(op);
    UncleanNotFound(t, name);
    UncleanEffect(t, name, op[0] == '+');
    var b := LastBar(name);
    var k, arg := name[..b], name[b + 1..];
    TopSpelling(t, k);
    LowerPrefix(op[1..], b);
    CutAt(name, b);
    if CleanText(arg) {
      TableClean(t, k);
      CleanParts(k, arg);
    }
  }

  lemma TableClean(t: Table, k: string)
    requires TableOk(t)
    ensures k in t.commands ==> CleanText(k)
    ensures k in t.categories ==> CleanText(k)
  {
    assert k in t.commands ==> GoodName(k);
  }

  /** A rule that names no command and no category is a first argument of a command without subcommands. */
  lemma UncleanEffect(t: Table, name: string, allow: bool)
    requires TableOk(t) && !CleanText(name) && Lookup(t, name).NotFound? && EffectOf(t, name, allow).Some?
    ensures var b := LastBar(name);
            && allow && b < |name| && name[b] == '|'
            && Lookup(t, name[..b]).Top?
            && EffectOf(t, name, true).value == Effect({}, {}, {(Lookup(t, name[..b]).cmd.id, name[b + 1..])})
  {
    hide TableOk, CleanText, Lookup, CategoryBits, CategoryIds;
    if name[0] == '@' {
      TableClean(t, name[1..]);
      CleanTail(name);
    }
  }

  lemma NameUnclean(op: string)
    requires IsRuleOp(op) && !CleanText(op)
    ensures !CleanText(ToLower(op[1..])) && (op[0] == '+' || op[0] == '-')
  {
    LowerClean(op[1..]);
    CleanTail(op);
  }

  lemma CleanParts(k: string, arg: string)
    requires CleanText(k) && CleanText(arg)
    ensures CleanText(k + "|" + arg)
  {
  }

  /** Only clean names are found. */
  lemma UncleanNotFound(t: Table, name: string)
    requires TableOk(t) && !CleanText(name)
    ensures Lookup(t, name).NotFound?
  {
    if !Lookup(t, name).NotFound? {
      FoundName(t, name);
      FoundClean(t, name);
      LowerClean(name);
    }
  }

  lemma FoundClean(t: Table, name: string)
    requires TableOk(t) && !Lookup(t, name).NotFound?
    ensures CleanText(ToLower(FullName(Lookup(t, name))))
  {
    hide CleanText;
    var b := ToLower(name[..BarFrom(name, 0)]);
    assert GoodName(b);
    var f := Lookup(t, name);
    if f.SubOf? {
      var j := ToLower(name[BarFrom(name, 0) + 1..]);
      assert SubsOk(b, t.commands[b].subs.value) && GoodName(j);
      CleanParts(b, j);
    }
  }

  lemma UncleanLost(t: Table, s: Selector, op: string)
    requires TableOk(t) && DistinctIds(t) && SelectorInv(t, s)
    requires '\0' !in op && !CleanText(op) && SetSelector(t, s, op).Done?
    ensures !Rebuilds(t, SetSelector(t, s, op).s)
  {
    hide TableOk, DistinctIds, CleanText, ToLower, EffectOf, SplitArgs, SetSelector, Pairs, ValidRules, Irreducible, ApplyRules, Recompute, Lead, AllowAll, AllowNone;
    assert IsRuleOp(op) by { UncleanNotAll(op); DoneIsRule(t, s, op); }
    SetSelectorEffect(t, s, op);
    UncleanIsFirstArg(t, op);
    var name := ToLower(op[1..]);
    var b := LastBar(name);
    var k, arg := name[..b], name[b + 1..];
    var x := (t.commands[k].id, arg);
    var s' := SetSelector(t, s, op).s;
    assert x in Pairs(s'.args);
    RuleUnclean(op);
    assert |SignedRule(name, true)| == |k| + |arg| + 2;
    UncleanText(t, s, op);
    UncleanTokens(t, s', RulesKept(s, name), SignedRule(name, true), k, arg);
  }

  function RulesKept(s: Selector, name: string): seq<string> {
    DropRules(RulesOf(s), name)
  }

  lemma UncleanText(t: Table, s: Selector, op: string)
    requires SelectorInv(t, s) && op != ""
    ensures var name := ToLower(op[1..]);
            && UpdateText(s.rules, op[1..], true) == Lead(RulesKept(s, name)) + SignedRule(name, true)
            && ValidRules(t, RulesKept(s, name))
  {
    hide SplitArgs, ToLower, ValidRule, Irreducible, ApplyRules, UpdateText;
    var rules, name := RulesOf(s), ToLower(op[1..]);
    ValidIsText(t, rules);
    UpdateJoin(rules, op[1..], true);
    JoinSnoc(RulesKept(s, name), SignedRule(name, true));
    DropValid(t, rules, name);
  }

  /** None of the tokens of the text spells the argument. */
  lemma UncleanTokens(t: Table, s: Selector, kept: seq<string>, rule: string, k: string, arg: string)
    requires TableOk(t) && DistinctIds(t) && k in t.commands && ValidRules(t, kept)
    requires s.rules == Lead(kept) + rule && |rule| == |k| + |arg| + 2
    requires !CleanText(rule) && !CleanText(arg) && '\0' !in rule
    ensures var r := Recompute(t, s); r.Some? ==> (t.commands[k].id, arg) !in Pairs(r.value.args)
  {
    hide TableOk, DistinctIds, CleanText, SplitArgs, SetSelector, Pairs, ValidRules, ApplyOps, Lead, CleanWord, StartOp, AllowAll, AllowNone;
    KeptWords(t, kept);
    SplitAfterWords(kept, rule);
    var start := SetSelector(t, s, StartOp(s));
    StartOpKind(s);
    NoPairs(t, s);
    if SplitArgs(rule).Some? {
      SplitShort(rule);
      OtherOps(t, start.s, k, arg, kept + SplitArgs(rule).value);
    }
  }

  lemma UncleanNotAll(op: string)
    requires !CleanText(op) && '\0' !in op
    ensures !AllowAll(op) && !AllowNone(op)
  {
    hide CleanText, ToLower;
    LowerClean(op);
    AllClean();
    LowerClean("allcommands");
    LowerClean("nocommands");
    LowerClean("+@all");
    LowerClean("-@all");
  }

  lemma AllClean()
    ensures CleanText("allcommands") && CleanText("nocommands") && CleanText("+@all") && CleanText("-@all")
    ensures '\0' !in "allcommands" && '\0' !in "nocommands" && '\0' !in "+@all" && '\0' !in "-@all"
  {
  }

  lemma KeptWords(t: Table, kept: seq<string>)
    requires ValidRules(t, kept)
    ensures forall i :: 0 <= i < |kept| ==> CleanWord(kept[i]) && CleanText(kept[i])
  {
    forall i | 0 <= i < |kept| ensures CleanWord(kept[i]) && CleanText(kept[i]) {
      assert ValidRule(t, kept[i]);
    }
  }

  /** The rule filed is as unclean as the operation. */
  lemma RuleUnclean(op: string)
    requires IsRuleOp(op) && !CleanText(op) && '\0' !in op
    ensures var rule := SignedRule(ToLower(op[1..]), true); !CleanText(rule) && '\0' !in rule
  {
    hide CleanText, ToLower, AllowAll, AllowNone;
    NameUnclean(op);
    var name := ToLower(op[1..]);
    var rule := SignedRule(name, true);
    CleanTail(rule);
    assert rule[1..] == name;
    LowerNul(op[1..]);
  }

  lemma LowerNul(s: string)
    requires '\0' !in s
    ensures '\0' !in ToLower(s)
  {
    assert forall i :: 0 <= i < |s| ==> s[i] in s && ToLower(s)[i] == Lower(s[i]);
  }

  lemma NoPairs(t: Table, s: Selector)
    requires AllowAll(StartOp(s)) || AllowNone(StartOp(s))
    ensures SetSelector(t, s, StartOp(s)).Done? && Pairs(SetSelector(t, s, StartOp(s)).s.args) == {}
  {
    hide AllowAll, AllowNone;
  }

  /**
   An accepted operation on a selector that its rules rebuild leaves a
   selector that its rules rebuild exactly when the operation is free of
   blanks and quotes.
   */
  lemma OpRebuilds(t: Table, s: Selector, op: string)
    requires TableOk(t) && DistinctIds(t) && SelectorInv(t, s)
    requires '\0' !in op && SetSelector(t, s, op).Done?
    ensures Rebuilds(t, SetSelector(t, s, op).s) <==> CleanText(op)
  {
    hide TableOk, DistinctIds, CleanText, SetSelector, ApplyOps, Pairs, ValidRules, Irreducible, ApplyRules;
    if CleanText(op) {
      SetSelectorInv(t, s, op);
      var s' := SetSelector(t, s, op).s;
      ReapplyRebuilds(t, s', s');
    } else {
      UncleanLost(t, s, op);
    }
  }
}
