/**
 Describing a selector: the rules it retains, applied again from +@all or
 -@all, rebuild its bitmap, its first arguments and its rules.
 */
module AclDescribe {
  import opened Sds
  import opened Acl
  import opened AclText
  import opened AclReplay

  // ----- a rule that writes over another -----

  /** The ids that can have first arguments. */
  function ArgIds(t: Table): set<nat> {
    set k | k in t.commands && t.commands[k].subs.None? :: t.commands[k].id
  }

  predicate ArgsWithin(t: Table, p: Perms) {
    forall x :: x in p.pairs ==> x.0 in ArgIds(t)
  }

  /** All that `e` writes, `n` writes too. */
  predicate Covers(t: Table, n: Effect, e: Effect) {
    && e.bits <= n.bits
    && (forall id :: id in e.reset && id in ArgIds(t) ==> id in n.reset)
    && (forall x :: x in e.adds ==> x.0 in n.reset || x in n.adds)
  }

  /** Two permissions that differ at most in what `n` writes. */
  ghost predicate AgreeBut(n: Effect, p: Perms, q: Perms) {
    && (forall i: nat :: (i in p.bits) != (i in q.bits) ==> i in n.bits && InBitmap(i))
    && (forall x: (nat, string) :: (x in p.pairs) != (x in q.pairs) ==> x.0 in n.reset || x in n.adds)
  }

  lemma CoveredAgrees(t: Table, n: Effect, e: Effect, p: Perms, q: Perms, allow: bool)
    requires Covers(t, n, e) && ArgsWithin(t, p) && AgreeBut(n, p, q)
    ensures AgreeBut(n, Apply(p, e, allow), q)
  {
  }

  lemma ApplyAgrees(n: Effect, e: Effect, p: Perms, q: Perms, allow: bool)
    requires AgreeBut(n, p, q)
    ensures AgreeBut(n, Apply(p, e, allow), Apply(q, e, allow))
  {
  }

  lemma OverwriteEqual(n: Effect, p: Perms, q: Perms, allow: bool)
    requires AgreeBut(n, p, q)
    ensures Apply(p, n, allow) == Apply(q, n, allow)
  {
    var a, b := Apply(p, n, allow), Apply(q, n, allow);
    assert a.bits == b.bits;
    assert a.pairs == b.pairs;
  }

  // ----- rules of a table -----

  predicate Allows(r: string) {
    At(r, 0) == '+'
  }

  /** A rule as retained: signed, lower case, free of blanks and quotes, and naming something in the table. */
  predicate ValidRule(t: Table, r: string) {
    && r != "" && (r[0] == '+' || r[0] == '-')
    && CleanText(r) && ToLower(r[1..]) == r[1..]
    && EffectOf(t, r[1..], Allows(r)).Some?
    && r != "+@all" && r != "-@all"
  }

  predicate ValidRules(t: Table, rules: seq<string>) {
    forall i :: 0 <= i < |rules| ==> ValidRule(t, rules[i])
  }

  function EffectOfRule(t: Table, r: string): Effect
    requires ValidRule(t, r)
  {
    EffectOf(t, r[1..], Allows(r)).value
  }

  function ApplyRules(t: Table, p: Perms, rules: seq<string>): Perms
    requires ValidRules(t, rules)
    decreases |rules|
  {
    if rules == [] then p
    else ApplyRules(t, Apply(p, EffectOfRule(t, rules[0]), Allows(rules[0])), rules[1..])
  }

  lemma {:induction false} ApplyRulesSnoc(t: Table, p: Perms, rules: seq<string>, r: string)
    requires ValidRules(t, rules) && ValidRule(t, r)
    ensures ValidRules(t, rules + [r])
    ensures ApplyRules(t, p, rules + [r]) == Apply(ApplyRules(t, p, rules), EffectOfRule(t, r), Allows(r))
    decreases |rules|
  {
    hide ValidRule, EffectOfRule, Apply;
    if rules == [] {
      assert rules + [r] == [r];
      assert [r][1..] == [];
    } else {
      assert (rules + [r])[1..] == rules[1..] + [r];
      ApplyRulesSnoc(t, Apply(p, EffectOfRule(t, rules[0]), Allows(rules[0])), rules[1..], r);
    }
  }

  /** First arguments are only added for commands without subcommands. */
  lemma EffectWithin(t: Table, name: string, allow: bool)
    requires EffectOf(t, name, allow).Some?
    ensures forall x :: x in EffectOf(t, name, allow).value.adds ==> x.0 in ArgIds(t)
  {
    hide Lookup, CategoryBits, CategoryIds;
    var f := FirstArgEffect(t, name, allow);
    if f.Some? && name[0] != '@' && Lookup(t, name).NotFound? {
      var k := LastBar(name);
      TopInTable(t, name[..k]);
    }
  }

  lemma TopInTable(t: Table, name: string)
    requires Lookup(t, name).Top?
    ensures exists k :: k in t.commands && t.commands[k] == Lookup(t, name).cmd
    ensures Lookup(t, name).cmd.subs.None? ==> Lookup(t, name).cmd.id in ArgIds(t)
  {
    var k := ToLower(name[..BarFrom(name, 0)]);
    assert k in t.commands && t.commands[k] == Lookup(t, name).cmd;
  }

  lemma ApplyWithin(t: Table, p: Perms, r: string)
    requires ValidRule(t, r) && ArgsWithin(t, p)
    ensures ArgsWithin(t, Apply(p, EffectOfRule(t, r), Allows(r)))
  {
    hide EffectOf, ArgIds;
    EffectWithin(t, r[1..], Allows(r));
  }

  /** Dropping rules that a later rule covers does not change what the later rule leaves. */
  lemma {:induction false} DropAgrees(t: Table, n: string, p: Perms, q: Perms, rules: seq<string>)
    requires TableOk(t) && ValidRule(t, n) && ValidRules(t, rules)
    requires ArgsWithin(t, p)
    requires AgreeBut(EffectOfRule(t, n), p, q)
    ensures ValidRules(t, DropRules(rules, n[1..]))
    ensures AgreeBut(EffectOfRule(t, n), ApplyRules(t, p, rules), ApplyRules(t, q, DropRules(rules, n[1..])))
    decreases |rules|
  {
    hide TableOk, ValidRule, EffectOfRule, Apply, AgreeBut, ArgsWithin, Overrides;
    if rules != [] {
      RuleShape(t, n);
      var r, dropped := rules[0], DropRules(rules[1..], n[1..]);
      assert ValidRule(t, r);
      RuleShape(t, r);
      var e := EffectOfRule(t, r);
      var p' := Apply(p, e, Allows(r));
      ApplyWithin(t, p, r);
      if Overrides(n[1..], r) {
        OverrideCovers(t, n, r);
        CoveredAgrees(t, EffectOfRule(t, n), e, p, q, Allows(r));
        DropAgrees(t, n, p', q, rules[1..]);
        assert DropRules(rules, n[1..]) == dropped;
      } else {
        ApplyAgrees(EffectOfRule(t, n), e, p, q, Allows(r));
        DropAgrees(t, n, p', Apply(q, e, Allows(r)), rules[1..]);
        assert DropRules(rules, n[1..]) == [r] + dropped;
        assert ([r] + dropped)[1..] == dropped;
      }
    }
  }

  lemma RuleShape(t: Table, r: string)
    requires ValidRule(t, r)
    ensures r != ""
  {
  }

  /** The rules dropped from the text are covered by the rule they are dropped for. */
  lemma OverrideCovers(t: Table, n: string, r: string)
    requires TableOk(t) && ValidRule(t, n) && ValidRule(t, r)
    requires Overrides(n[1..], r)
    ensures Covers(t, EffectOfRule(t, n), EffectOfRule(t, r))
  {
    hide TableOk, CleanText, ToLower, CategoryBits, CategoryIds, Lookup;
    var a, b := n[1..], r[1..];
    if a == b {
      SameNameCovers(t, a, Allows(n), Allows(r));
    } else {
      ContainerCovers(t, a, b, Allows(n), Allows(r));
    }
  }

  lemma SameNameCovers(t: Table, name: string, x: bool, y: bool)
    requires EffectOf(t, name, x).Some? && EffectOf(t, name, y).Some?
    ensures Covers(t, EffectOf(t, name, x).value, EffectOf(t, name, y).value)
  {
    hide CategoryBits, CategoryIds, Lookup;
  }

  /** A rule for a whole command covers the rules for its subcommands and first arguments. */
  lemma ContainerCovers(t: Table, a: string, b: string, x: bool, y: bool)
    requires TableOk(t)
    requires EffectOf(t, a, x).Some? && EffectOf(t, b, y).Some?
    requires |b| > |a| && b[..|a|] == a && b[|a|] == '|'
    ensures Covers(t, EffectOf(t, a, x).value, EffectOf(t, b, y).value)
  {
    hide TableOk, ToLower, CategoryBits, CategoryIds;
    assert b[0] == a[0];
    if a[0] == '@' {
      assert b[1..][|a| - 1] == '|';
      NoBarCategory(t, b[1..]);
    } else {
      BarredEffect(t, b, |a|, y);
      assert EffectOf(t, a, x).value == Effect(FoundBits(Lookup(t, a)), {FoundId(Lookup(t, a))}, {});
    }
  }

  lemma NoBarCategory(t: Table, c: string)
    requires TableOk(t) && c in t.categories
    ensures '|' !in c
  {
  }

  /** What a barred rule can be, given the command before one of its bars. */
  lemma BarredEffect(t: Table, b: string, k: nat, y: bool)
    requires TableOk(t)
    requires k < |b| && b[k] == '|' && b[0] != '@' && EffectOf(t, b, y).Some?
    requires EffectOf(t, b[..k], true).Some?
    ensures Lookup(t, b[..k]).Top?
    ensures var c := Lookup(t, b[..k]).cmd;
            var e := EffectOf(t, b, y).value;
            && e.bits <= {c.id} + SubIds(c)
            && (forall id :: id in e.reset && id in ArgIds(t) ==> id == c.id)
            && (forall p :: p in e.adds ==> p.0 == c.id)
  {
    hide ToLower, CleanText, GoodName, CategoryBits, CategoryIds;
    var f := Lookup(t, b);
    if f.NotFound? {
      var m := LastBar(b);
      assert m >= k;
      assert m > k ==> b[..m][k] == '|';
      TopHasNoBar(t, b[..m]);
    } else {
      FirstBarIs(t, b, k);
      var base := ToLower(b[..k]);
      assert b[..k][..k] == b[..k];
      assert base in t.commands;
      assert f.sub.id in SubIds(f.parent);
      var j := ToLower(b[k + 1..]);
      assert t.commands[base].subs.value[j] == f.sub;
      SubIsNoArgId(t, base, j);
    }
  }

  lemma SubIsNoArgId(t: Table, k: string, j: string)
    requires TableOk(t)
    requires k in t.commands && t.commands[k].subs.Some? && j in t.commands[k].subs.value
    ensures t.commands[k].subs.value[j].id !in ArgIds(t)
  {
  }

  lemma TopHasNoBar(t: Table, name: string)
    requires Lookup(t, name).Top?
    ensures '|' !in name
  {
  }

  lemma FirstBarIs(t: Table, b: string, k: nat)
    requires !Lookup(t, b).NotFound?
    requires k < |b| && b[k] == '|'
    ensures BarFrom(b, 0) == k && Lookup(t, b).SubOf?
    ensures BarFrom(b[..k], 0) == k
  {
    var i := BarFrom(b, 0);
    assert forall j :: i < j < |b| ==> b[i + 1..][j - i - 1] == b[j];
    assert forall j :: 0 <= j < k ==> b[..k][j] == b[j];
  }

  // ----- what every operation keeps -----

  /** No rule is overridden by a later one. */
  predicate Irreducible(rules: seq<string>) {
    forall i, j :: 0 <= i < j < |rules| ==> Outlives(rules[i], rules[j])
  }

  predicate Outlives(e: string, later: string) {
    later != "" && !Overrides(later[1..], e)
  }

  /** The permissions before any rule: all or none. */
  function Start(all: bool): Perms {
    if all then Perms(AllBits(), {}) else Perms({}, {})
  }

  function RulesOf(s: Selector): seq<string> {
    var r := SplitArgs(s.rules);
    if r.Some? then r.value else []
  }

  /** The retained rules spell the text, none is redundant, and they rebuild the permissions. */
  predicate SelectorInv(t: Table, s: Selector) {
    var rules := RulesOf(s);
    && SplitArgs(s.rules) == Some(rules)
    && s.rules == Join(rules)
    && ValidRules(t, rules)
    && Irreducible(rules)
    && PermsOf(s) == ApplyRules(t, Start(RESERVED_BIT in s.bits), rules)
    && s.bits <= AllBits()
    && (s.allCommands ==> s.bits == AllBits())
  }

  lemma ValidIsText(t: Table, rules: seq<string>)
    requires ValidRules(t, rules)
    ensures AllRuleText(rules)
    ensures SplitArgs(Join(rules)) == Some(rules)
  {
    hide SplitArgs, EffectOf, ToLower;
    forall i | 0 <= i < |rules|
      ensures RuleText(rules[i]) && CleanWord(rules[i])
    {
      assert ValidRule(t, rules[i]);
      assert forall j :: 0 <= j < |rules[i]| ==> CleanChar(rules[i][j]);
    }
    SplitCleanWords(rules);
  }

  lemma {:induction false} DropValid(t: Table, rules: seq<string>, name: string)
    requires ValidRules(t, rules)
    ensures ValidRules(t, DropRules(rules, name))
    ensures forall i :: 0 <= i < |DropRules(rules, name)| ==> !Overrides(name, DropRules(rules, name)[i])
    decreases |rules|
  {
    hide ValidRule, Overrides;
    if rules != [] {
      DropValid(t, rules[1..], name);
    }
  }

  lemma {:induction false} DropMember(rules: seq<string>, name: string, x: string)
    ensures x in DropRules(rules, name) ==> x in rules
    decreases |rules|
  {
    hide Overrides;
    if rules != [] {
      DropMember(rules[1..], name, x);
    }
  }

  lemma {:induction false} DropIrreducible(rules: seq<string>, name: string)
    requires Irreducible(rules)
    ensures Irreducible(DropRules(rules, name))
    decreases |rules|
  {
    hide Overrides;
    if rules != [] {
      var rest := DropRules(rules[1..], name);
      DropIrreducible(rules[1..], name);
      if !Overrides(name, rules[0]) {
        var d := [rules[0]] + rest;
        forall j | 0 < j < |d|
          ensures Outlives(rules[0], d[j])
        {
          DropMember(rules[1..], name, d[j]);
          assert d[j] == rest[j - 1];
          var i :| 0 <= i < |rules[1..]| && rules[1..][i] == d[j];
          assert rules[i + 1] == d[j];
        }
        assert forall i, j :: 0 < i < j < |d| ==> d[i] == rest[i - 1] && d[j] == rest[j - 1];
        assert DropRules(rules, name) == d;
      } else {
        assert DropRules(rules, name) == rest;
      }
    }
  }

  /** No rule touches the reserved bit. */
  lemma EffectMissesReserved(t: Table, name: string, allow: bool)
    requires TableOk(t) && EffectOf(t, name, allow).Some?
    ensures RESERVED_BIT !in EffectOf(t, name, allow).value.bits
  {
    hide ToLower, CleanText;
    if name[0] != '@' {
      FoundMissesReserved(t, name);
    } else {
      CategoryMissesReserved(t, t.categories[name[1..]]);
    }
  }

  lemma FoundMissesReserved(t: Table, name: string)
    requires TableOk(t)
    ensures !Lookup(t, name).NotFound? ==> RESERVED_BIT !in FoundBits(Lookup(t, name))
  {
    hide ToLower, CleanText, GoodName;
    var f := Lookup(t, name);
    if !f.NotFound? {
      var base := ToLower(name[..BarFrom(name, 0)]);
      assert base in t.commands;
      assert t.commands[base].subs.Some? ==> SubsOk(base, t.commands[base].subs.value);
    }
  }

  lemma CategoryMissesReserved(t: Table, flag: bv64)
    requires TableOk(t)
    ensures RESERVED_BIT !in CategoryBits(t, flag)
  {
    hide InCategory;
    ReservedUnused(t);
    hide TableOk;
    assert RESERVED_BIT !in CategoryIds(t, flag);
  }

  lemma ReservedUnused(t: Table)
    requires TableOk(t)
    ensures forall k :: k in t.commands ==> t.commands[k].id != RESERVED_BIT
    ensures forall k, j :: k in t.commands && t.commands[k].subs.Some? && j in t.commands[k].subs.value
              ==> t.commands[k].subs.value[j].id != RESERVED_BIT
  {
    hide ToLower, CleanText, GoodName;
    forall k, j | k in t.commands && t.commands[k].subs.Some? && j in t.commands[k].subs.value
      ensures t.commands[k].subs.value[j].id != RESERVED_BIT
    {
      assert SubsOk(k, t.commands[k].subs.value);
    }
  }

  /** Filing a rule over the list: drop what it overrides, then add it. */
  function FileRule(rules: seq<string>, r: string): seq<string>
    requires r != ""
  {
    DropRules(rules, r[1..]) + [r]
  }

  /** The compacted list has the effect of the full list. */
  lemma FileRuleReplays(t: Table, p: Perms, rules: seq<string>, r: string)
    requires TableOk(t) && ValidRules(t, rules) && ValidRule(t, r) && ArgsWithin(t, p)
    ensures ValidRules(t, FileRule(rules, r))
    ensures ApplyRules(t, p, FileRule(rules, r)) == Apply(ApplyRules(t, p, rules), EffectOfRule(t, r), Allows(r))
  {
    hide TableOk, Apply, EffectOf;
    var n := EffectOfRule(t, r);
    DropAgrees(t, r, p, p, rules);
    var kept := DropRules(rules, r[1..]);
    OverwriteEqual(n, ApplyRules(t, p, rules), ApplyRules(t, p, kept), Allows(r));
    ApplyRulesSnoc(t, p, kept, r);
  }

  lemma FileRuleIrreducible(t: Table, rules: seq<string>, r: string)
    requires ValidRules(t, rules) && Irreducible(rules) && r != ""
    ensures Irreducible(FileRule(rules, r))
  {
    hide Overrides, ValidRule;
    var kept := DropRules(rules, r[1..]);
    DropValid(t, rules, r[1..]);
    DropIrreducible(rules, r[1..]);
    var all := FileRule(rules, r);
    forall i, j | 0 <= i < j < |all|
      ensures Outlives(all[i], all[j])
    {
      assert all[i] == kept[i];
      if j < |kept| {
        assert all[j] == kept[j];
      }
    }
  }

  /** The rule that a rule operation files. */
  function RuleOfOp(op: string): string
    requires op != ""
  {
    SignedRule(ToLower(op[1..]), op[0] == '+')
  }

  lemma RuleOfOpValid(t: Table, op: string)
    requires TableOk(t) && IsRuleOp(op) && CleanText(op)
    requires EffectOf(t, ToLower(op[1..]), op[0] == '+').Some?
    ensures ValidRule(t, RuleOfOp(op))
    ensures EffectOfRule(t, RuleOfOp(op)) == EffectOf(t, ToLower(op[1..]), op[0] == '+').value
    ensures RuleOfOp(op)[1..] == ToLower(op[1..]) && Allows(RuleOfOp(op)) == (op[0] == '+')
  {
    assert op != "";
    hide EffectOf, TableOk, CleanText, ToLower, IsRuleOp;
    var r := RuleOfOp(op);
    assert r[1..] == ToLower(op[1..]);
    ToLowerIdempotent(op[1..]);
    LowerPlain(op);
    NotAllRule(t, op);
  }

  lemma LowerPlain(op: string)
    requires op != "" && CleanText(op)
    ensures CleanText(RuleOfOp(op))
  {
    var r := RuleOfOp(op);
    forall i | 0 <= i < |r|
      ensures CleanChar(r[i])
    {
      assert CleanChar(op[i]);
    }
    assert CleanChar('+') && CleanChar('-');
  }

  lemma NotAllRule(t: Table, op: string)
    requires TableOk(t) && op != ""
    requires EffectOf(t, ToLower(op[1..]), op[0] == '+').Some?
    ensures RuleOfOp(op) != "+@all" && RuleOfOp(op) != "-@all"
  {
    hide ToLower;
    var name := ToLower(op[1..]);
    assert RuleOfOp(op)[1..] == name;
    AllIsNoRule(t, op[0] == '+');
  }

  lemma AllIsNoRule(t: Table, allow: bool)
    requires TableOk(t)
    ensures EffectOf(t, "@all", allow) == None
  {
    assert "@all"[1..] == "all";
  }

  /** The bitmap stays inside the table, and ALLCOMMANDS is set only when every bit is. */
  predicate FlagOk(s: Selector) {
    s.bits <= AllBits() && (s.allCommands ==> s.bits == AllBits())
  }

  lemma SetBitsFlag(s: Selector, ids: set<nat>, allow: bool)
    requires FlagOk(s)
    ensures FlagOk(SetBits(s, ids, allow))
  {
  }

  lemma SetSelectorFlag(t: Table, s: Selector, op: string)
    requires FlagOk(s) && SetSelector(t, s, op).Done?
    ensures FlagOk(SetSelector(t, s, op).s)
  {
    hide UpdateText, FoundBits, CategoryBits, CategoryIds, SetBits, FlagOk, AllowAll, AllowNone, Lookup;
    if AllowAll(op) || AllowNone(op) {
      AllFlags();
    } else if At(op, 1) == '@' {
      var allow := op[0] == '+';
      var s1 := UpdateRules(s, op[1..], allow);
      SameFlag(s, s1);
      var bits := CategoryBits(t, t.categories[ToLower(op[2..])]);
      SetBitsFlag(s1, bits, allow);
      SameFlag(SetBits(s1, bits, allow), SetSelector(t, s, op).s);
    } else if op[0] == '+' && '|' in op {
      var k := LastBar(op);
      var f := Lookup(t, op[1..k]);
      if f.cmd.subs.Some? {
        ChangeFlag(s, Lookup(t, op[1..]), true, op[1..]);
      } else {
        AddArgFlag(s, f.cmd.id, op[k + 1..], op[1..]);
      }
    } else {
      var f := Lookup(t, op[1..]);
      ChangeFlag(s, f, op[0] == '+', FullName(f));
    }
  }

  lemma AllFlags()
    ensures FlagOk(Selector(AllBits(), map[], "", true)) && FlagOk(Selector({}, map[], "", false))
  {
  }

  lemma SameFlag(s: Selector, s': Selector)
    requires FlagOk(s) && s.bits == s'.bits && s.allCommands == s'.allCommands
    ensures FlagOk(s')
  {
  }

  lemma ChangeFlag(s: Selector, f: Found, allow: bool, rule: string)
    requires FlagOk(s) && !f.NotFound?
    ensures FlagOk(UpdateRules(ChangePerm(s, f, allow), rule, allow))
  {
    SetBitsFlag(s, FoundBits(f), allow);
  }

  lemma AddArgFlag(s: Selector, id: nat, arg: string, rule: string)
    requires FlagOk(s)
    ensures FlagOk(UpdateRules(AddArg(s, id, arg), rule, true))
  {
  }

  /** Every successful operation keeps the invariant. */
  lemma SetSelectorInv(t: Table, s: Selector, op: string)
    requires TableOk(t) && SelectorInv(t, s) && CleanText(op)
    requires SetSelector(t, s, op).Done?
    ensures SelectorInv(t, SetSelector(t, s, op).s)
  {
    hide TableOk, CleanText, SplitArgs, Apply, EffectOf, SetSelector, FlagOk;
    var s' := SetSelector(t, s, op).s;
    assert FlagOk(s) by { FlagIs(s); }
    SetSelectorFlag(t, s, op);
    FlagIs(s');
    if AllowAll(op) || AllowNone(op) {
      AllOpInv(t, s, op);
    } else {
      DoneIsRule(t, s, op);
      RuleOpInv(t, s, op);
    }
  }

  lemma FlagIs(s: Selector)
    ensures FlagOk(s) <==> s.bits <= AllBits() && (s.allCommands ==> s.bits == AllBits())
  {
  }

  lemma DoneIsRule(t: Table, s: Selector, op: string)
    requires SetSelector(t, s, op).Done? && !AllowAll(op) && !AllowNone(op)
    ensures IsRuleOp(op)
  {
  }

  lemma AllOpInv(t: Table, s: Selector, op: string)
    requires AllowAll(op) || AllowNone(op)
    ensures SetSelector(t, s, op).Done? && SelectorInv(t, SetSelector(t, s, op).s)
  {
    hide AllowAll, AllowNone;
    var s' := SetSelector(t, s, op).s;
    assert SplitArgs("") == Some([]);
    assert Pairs(map[]) == {};
    assert InBitmap(RESERVED_BIT);
  }

  lemma RuleOpInv(t: Table, s: Selector, op: string)
    requires TableOk(t) && SelectorInv(t, s) && CleanText(op) && IsRuleOp(op)
    requires SetSelector(t, s, op).Done?
    requires var s' := SetSelector(t, s, op).s; s'.bits <= AllBits() && (s'.allCommands ==> s'.bits == AllBits())
    ensures SelectorInv(t, SetSelector(t, s, op).s)
    ensures RulesOf(SetSelector(t, s, op).s) == FileRule(RulesOf(s), RuleOfOp(op))
  {
    hide TableOk, CleanText, SplitArgs, Apply, EffectOf, SetSelector, ValidRule, AllRuleText, Irreducible;
    var s' := SetSelector(t, s, op).s;
    SetSelectorEffect(t, s, op);
    RuleOfOpValid(t, op);
    var rules, r := RulesOf(s), RuleOfOp(op);
    var start := Start(RESERVED_BIT in s.bits);
    ValidIsText(t, rules);
    UpdateJoin(rules, op[1..], op[0] == '+');
    StartHasNoArgs(t, RESERVED_BIT in s.bits);
    FileRuleReplays(t, start, rules, r);
    FileRuleIrreducible(t, rules, r);
    ValidIsText(t, FileRule(rules, r));
    EffectMissesReserved(t, ToLower(op[1..]), op[0] == '+');
    ReservedStays(PermsOf(s), EffectOfRule(t, r), Allows(r));
  }

  lemma StartHasNoArgs(t: Table, all: bool)
    ensures ArgsWithin(t, Start(all))
  {
  }

  lemma ReservedStays(p: Perms, e: Effect, allow: bool)
    requires RESERVED_BIT !in e.bits
    ensures RESERVED_BIT in Apply(p, e, allow).bits <==> RESERVED_BIT in p.bits
  {
  }

  // ----- applying the retained rules again -----

  /** Apply operations in order; None when one of them is refused. */
  function ApplyOps(t: Table, s: Selector, ops: seq<string>): Option<Selector>
    decreases |ops|
  {
    if ops == [] then Some(s)
    else
      var r := SetSelector(t, s, ops[0]);
      if r.Done? then ApplyOps(t, r.s, ops[1..]) else None
  }

  function StartOp(s: Selector): string {
    if RESERVED_BIT in s.bits then "+@all" else "-@all"
  }

  datatype Description = Description(text: string) | AssertFails | BitmapMismatch

  /** ACLDescribeSelectorCommandRules, with its assertions and its final panic. */
  function Describe(t: Table, s: Selector): Description {
    var fake := SetSelector(t, NO_PERMISSIONS, StartOp(s));
    var argv := SplitArgs(s.rules);
    if !fake.Done? || argv.None? then AssertFails
    else
      var r := ApplyOps(t, fake.s, argv.value);
      if r.None? then AssertFails
      else if r.value.bits != s.bits then BitmapMismatch
      else Description(StartOp(s) + (if s.rules == "" then "" else " " + s.rules))
  }

  /** ACLRecomputeCommandBitsFromCommandRulesAllUsers for one selector; None when an assertion fails. */
  function Recompute(t: Table, s: Selector): Option<Selector> {
    var start := SetSelector(t, s, StartOp(s));
    var argv := SplitArgs(s.rules);
    if !start.Done? || argv.None? then None else ApplyOps(t, start.s, argv.value)
  }

  lemma RetainedIsOp(t: Table, r: string)
    requires ValidRule(t, r)
    ensures IsRuleOp(r) && RuleOfOp(r) == r
  {
    hide EffectOf, CleanText, AllowAll, AllowNone, ToLower;
    LowerRule(r);
    NotAllOp(r);
  }

  lemma LowerRule(r: string)
    requires r != "" && (r[0] == '+' || r[0] == '-') && ToLower(r[1..]) == r[1..]
    ensures ToLower(r) == r && RuleOfOp(r) == r
  {
    assert forall i :: 0 < i < |r| ==> ToLower(r)[i] == ToLower(r[1..])[i - 1];
  }

  lemma NotAllOp(r: string)
    requires r != "" && (r[0] == '+' || r[0] == '-') && CleanText(r) && ToLower(r) == r
    requires r != "+@all" && r != "-@all"
    ensures !AllowAll(r) && !AllowNone(r)
  {
    hide CStr;
    assert '\0' !in r by {
      assert forall i :: 0 <= i < |r| ==> CleanChar(r[i]);
    }
    hide CleanText;
    AllNames();
  }

  lemma AllNames()
    ensures ToLower(CStr("allcommands"))[0] == 'a' && ToLower(CStr("nocommands"))[0] == 'n'
    ensures ToLower(CStr("+@all")) == "+@all" && ToLower(CStr("-@all")) == "-@all"
  {
    hide CStr;
  }

  lemma {:induction false} DropNone(rules: seq<string>, r: string)
    requires r != "" && forall i :: 0 <= i < |rules| ==> Outlives(rules[i], r)
    ensures DropRules(rules, r[1..]) == rules
    decreases |rules|
  {
    hide Overrides;
    if rules != [] {
      assert Outlives(rules[0], r);
      DropNone(rules[1..], r);
    }
  }

  /** A retained rule applied to a selector that holds the rules before it. */
  lemma ReapplyOne(t: Table, s: Selector, r: string)
    requires TableOk(t) && SelectorInv(t, s) && ValidRule(t, r)
    requires forall i :: 0 <= i < |RulesOf(s)| ==> Outlives(RulesOf(s)[i], r)
    ensures SetSelector(t, s, r).Done?
    ensures var s' := SetSelector(t, s, r).s;
            && SelectorInv(t, s') && RulesOf(s') == RulesOf(s) + [r]
            && (RESERVED_BIT in s'.bits <==> RESERVED_BIT in s.bits)
  {
    RetainedIsOp(t, r);
    hide TableOk, SetSelector, Apply, CleanText, SplitArgs, ToLower, EffectOf, IsRuleOp, SelectorInv;
    assert EffectOf(t, r[1..], Allows(r)).Some?;
    assert ToLower(r[1..]) == r[1..];
    SetSelectorEffect(t, s, r);
    SetSelectorInv(t, s, r);
    var s' := SetSelector(t, s, r).s;
    InvFlags(t, s');
    RuleOpInv(t, s, r);
    DropNone(RulesOf(s), r);
    EffectMissesReserved(t, r[1..], Allows(r));
    ReservedStays(PermsOf(s), EffectOfRule(t, r), Allows(r));
  }

  lemma InvFlags(t: Table, s: Selector)
    requires SelectorInv(t, s)
    ensures s.bits <= AllBits() && (s.allCommands ==> s.bits == AllBits())
  {
  }

  /** Retained rules applied in order are all accepted and all retained again. */
  lemma {:induction false} ReapplyAll(t: Table, s: Selector, rules: seq<string>)
    requires TableOk(t) && SelectorInv(t, s) && ValidRules(t, rules) && Irreducible(RulesOf(s) + rules)
    ensures ApplyOps(t, s, rules).Some?
    ensures var s' := ApplyOps(t, s, rules).value;
            && SelectorInv(t, s') && RulesOf(s') == RulesOf(s) + rules
            && (RESERVED_BIT in s'.bits <==> RESERVED_BIT in s.bits)
    decreases |rules|
  {
    hide TableOk, SelectorInv, SetSelector, RulesOf, ValidRule, Overrides;
    var had := RulesOf(s);
    if rules == [] {
      assert had + rules == had;
    } else {
      var r := rules[0];
      forall i | 0 <= i < |had|
        ensures Outlives(had[i], r)
      {
        assert (had + rules)[i] == had[i] && (had + rules)[|had|] == r;
      }
      ReapplyOne(t, s, r);
      var s' := SetSelector(t, s, r).s;
      assert had + [r] + rules[1..] == had + rules;
      ReapplyAll(t, s', rules[1..]);
    }
  }

  /**
   Whatever a selector held before, starting it over from +@all or -@all and
   applying the retained rules of `s` gives the permissions and the rules of `s`.
   */
  lemma ReapplyRebuilds(t: Table, s: Selector, any: Selector)
    requires TableOk(t) && SelectorInv(t, s)
    ensures SetSelector(t, any, StartOp(s)).Done?
    ensures var r := ApplyOps(t, SetSelector(t, any, StartOp(s)).s, RulesOf(s));
            && r.Some?
            && PermsOf(r.value) == PermsOf(s) && r.value.rules == s.rules
            && SelectorInv(t, r.value)
  {
    hide TableOk, Apply, EffectOf, CleanText, AllowAll, AllowNone, ValidRule, Irreducible;
    StartOpKind(s);
    AllOpInv(t, any, StartOp(s));
    var s0 := SetSelector(t, any, StartOp(s)).s;
    assert s0.rules == "" && (RESERVED_BIT in s0.bits <==> RESERVED_BIT in s.bits) by {
      assert InBitmap(RESERVED_BIT);
    }
    assert RulesOf(s0) == [] by { assert SplitArgs("") == Some([]); }
    assert [] + RulesOf(s) == RulesOf(s);
    hide SetSelector, SplitArgs;
    ReapplyAll(t, s0, RulesOf(s));
  }

  lemma StartOpKind(s: Selector)
    ensures if RESERVED_BIT in s.bits then AllowAll(StartOp(s)) else AllowNone(StartOp(s)) && !AllowAll(StartOp(s))
  {
    AllNames();
  }

  // ----- every run of operations -----

  /** Operations one after the other; a refused operation changes nothing. */
  function RunOps(t: Table, s: Selector, ops: seq<string>): Selector
    decreases |ops|
  {
    if ops == [] then s
    else
      var r := SetSelector(t, s, ops[0]);
      RunOps(t, if r.Done? then r.s else s, ops[1..])
  }

  lemma {:induction false} RunOpsInv(t: Table, s: Selector, ops: seq<string>)
    requires TableOk(t) && SelectorInv(t, s)
    requires forall i :: 0 <= i < |ops| ==> CleanText(ops[i])
    ensures SelectorInv(t, RunOps(t, s, ops))
    decreases |ops|
  {
    hide TableOk, SelectorInv, SetSelector, CleanText;
    if ops != [] {
      var r := SetSelector(t, s, ops[0]);
      if r.Done? {
        SetSelectorInv(t, s, ops[0]);
        RunOpsInv(t, r.s, ops[1..]);
      } else {
        RunOpsInv(t, s, ops[1..]);
      }
    }
  }

  lemma NoPermissionsInv(t: Table)
    ensures SelectorInv(t, NO_PERMISSIONS)
  {
    assert SplitArgs("") == Some([]);
    assert Pairs(map[]) == {};
  }

  /**
   After any operations on a new selector: describing it succeeds, so neither
   its assertions nor the bitmap panic can be reached; recomputing its bits
   gives the same permissions and the same rules; and the ALLCOMMANDS flag is
   only set when every bit is.
   */
  lemma DescribeNeverPanics(t: Table, ops: seq<string>)
    requires TableOk(t)
    requires forall i :: 0 <= i < |ops| ==> CleanText(ops[i])
    ensures var s := RunOps(t, NO_PERMISSIONS, ops);
            && Describe(t, s).Description?
            && Recompute(t, s).Some?
            && PermsOf(Recompute(t, s).value) == PermsOf(s)
            && Recompute(t, s).value.rules == s.rules
            && (s.allCommands ==> s.bits == AllBits())
  {
    hide TableOk, SetSelector, ApplyOps, RunOps, CleanText, Pairs, ValidRules, Irreducible, ApplyRules;
    NoPermissionsInv(t);
    RunOpsInv(t, NO_PERMISSIONS, ops);
    var s := RunOps(t, NO_PERMISSIONS, ops);
    ReapplyRebuilds(t, s, NO_PERMISSIONS);
    ReapplyRebuilds(t, s, s);
  }

  // ----- first arguments with blanks -----

  lemma FirstArgName(t: Table, k: string, arg: string)
    requires TableOk(t) && k in t.commands && t.commands[k].subs.None?
    requires arg != "" && '|' !in arg && ToLower(arg) == arg
    ensures var name := k + "|" + arg;
            && ToLower(name) == name && name[0] != '@'
            && EffectOf(t, name, true) == Some(Effect({}, {}, {(t.commands[k].id, arg)}))
  {
    var name := k + "|" + arg;
    assert GoodName(k);
    hide TableOk, CleanText, BarFrom, LastBar;
    LowerBarred(k, arg);
    hide ToLower;
    BarAt(k, arg);
    assert name[..|k|] == k && name[|k| + 1..] == arg;
    assert k[..|k|] == k;
  }

  lemma BarAt(k: string, arg: string)
    requires '|' !in k && '|' !in arg
    ensures BarFrom(k + "|" + arg, 0) == |k| && LastBar(k + "|" + arg) == |k| && BarFrom(k, 0) == |k|
  {
    hide BarFrom, LastBar;
    var name := k + "|" + arg;
    assert name[|k|] == '|';
    assert forall i :: 0 <= i < |k| ==> name[i] == k[i];
    assert BarFrom(k, 0) == |k|;
    assert BarFrom(name, 0) == |k|;
    LastBarAt(k, arg);
  }

  lemma LastBarAt(k: string, arg: string)
    requires '|' !in arg
    ensures LastBar(k + "|" + arg) == |k|
  {
    hide *;
    var name := k + "|" + arg;
    forall i | |k| < i < |name|
      ensures name[i] != '|'
    {
      TailChar(k, arg, i);
    }
    LastBarUnique(name, |k|);
  }

  lemma TailChar(k: string, arg: string, i: nat)
    requires '|' !in arg && |k| < i < |k + "|" + arg|
    ensures (k + "|" + arg)[i] != '|'
  {
    hide *;
    assert (k + "|" + arg)[i] == arg[i - |k| - 1];
    assert arg[i - |k| - 1] in arg;
  }

  lemma LastBarUnique(s: string, k: nat)
    requires k < |s| && s[k] == '|'
    requires forall j :: k < j < |s| ==> s[j] != '|'
    ensures LastBar(s) == k
  {
    hide LastBar;
  }

  /**
   The restriction to first arguments without blanks is needed: one accepted
   operation whose first argument holds a blank makes describing the selector
   fail an assertion, because the rule text splits in two.
   */
  lemma BlankFirstArgFails(t: Table, k: string)
    requires TableOk(t) && k in t.commands && t.commands[k].subs.None?
    ensures var r := SetSelector(t, NO_PERMISSIONS, "+" + k + "|a b");
            r.Done? && Describe(t, r.s) == AssertFails
  {
    hide TableOk, SetSelector, EffectOf, ToLower;
    var op, name := "+" + k + "|a b", k + "|" + "a b";
    assert ToLower("a b") == "a b" && ToLower("a") == "a" by { SmallWords(); }
    FirstArgName(t, k, "a b");
    FirstArgName(t, k, "a");
    assert op[1..] == name;
    NameIsOp(name);
    assert op == "+" + name;
    SetSelectorEffect(t, NO_PERMISSIONS, op);
    var s := SetSelector(t, NO_PERMISSIONS, op).s;
    UpdateJoin([], name, true);
    assert s.rules == "+" + name by {
      assert DropRules([], name) == [];
      assert [] + [SignedRule(name, true)] == [SignedRule(name, true)];
    }
    SplitsInTwo(t, k);
    var name' := k + "|" + "a";
    NameIsOp(name');
    var op' := "+" + name';
    assert op'[1..] == name';
    var fake := SetSelector(t, NO_PERMISSIONS, StartOp(s));
    if fake.Done? {
      SetSelectorEffect(t, fake.s, op');
      var s' := SetSelector(t, fake.s, op').s;
      NotAnOp(t, s');
      assert [op', "b"][1..] == ["b"];
      assert ApplyOps(t, s', ["b"]) == None;
      assert ApplyOps(t, fake.s, [op', "b"]) == None;
    }
  }

  lemma SmallWords()
    ensures ToLower("a b") == "a b" && ToLower("a") == "a"
  {
  }

  lemma NameIsOp(name: string)
    requires name != "" && name[0] != '@'
    ensures IsRuleOp("+" + name)
  {
    hide CStr, ToLower;
    var op := "+" + name;
    assert op[0] == '+' && op[1] == name[0];
    AllNames();
    CStrStarts(op);
    LowerNotAt(name[0]);
    var c := CStr(op);
    assert ToLower(c)[0] == '+';
    assert |c| > 1 ==> ToLower(c)[1] == Lower(name[0]);
  }

  lemma LowerNotAt(c: char)
    requires c != '@'
    ensures Lower(c) != '@'
  {
  }

  lemma CStrStarts(s: string)
    requires |s| >= 2 && s[0] == '+' && s[1] != '@'
    ensures CStr(s) != "" && CStr(s)[0] == '+'
    ensures |CStr(s)| > 1 ==> CStr(s)[1] == s[1]
  {
  }

  lemma NotAnOp(t: Table, s: Selector)
    ensures !SetSelector(t, s, "b").Done?
  {
    hide CStr;
    assert '\0' !in "b";
    AllNames();
    assert ToLower(CStr("b"))[0] == 'b';
  }

  lemma SplitsInTwo(t: Table, k: string)
    requires TableOk(t) && k in t.commands
    ensures SplitArgs("+" + (k + "|" + "a b")) == Some(["+" + (k + "|" + "a"), "b"])
  {
    assert GoodName(k);
    hide TableOk, ToLower, SplitArgs, GoodName;
    var w := "+" + (k + "|" + "a");
    FirstWord(k);
    SplitCleanWord(w, " b");
    assert "+" + (k + "|" + "a b") == w + " b";
    LastWord();
    assert [w] + ["b"] == [w, "b"];
  }

  lemma FirstWord(k: string)
    requires CleanText(k)
    ensures CleanWord("+" + (k + "|" + "a"))
  {
    var w := "+" + (k + "|" + "a");
    assert forall i :: 1 <= i <= |k| ==> w[i] == k[i - 1];
  }

  lemma LastWord()
    ensures SplitArgs(" b") == Some(["b"])
  {
    hide SplitArgs;
    assert CleanWord("b");
    SplitCleanWords(["b"]);
    assert Join(["b"]) == "b";
    assert " b"[1..] == "b";
    SplitSkips(" b", "b");
  }
}
