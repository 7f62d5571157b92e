/**
 Replaying the retained rules of a selector rebuilds the selector.

 Every rule overwrites some permissions with one value and leaves the others
 alone; a rule may be dropped from the list once a later rule overwrites all
 that it wrote.
 */
module AclReplay {
  import opened Sds
  import opened Acl

  // ----- what a rule does -----

  /** Permissions: command bits, and (command id, lower-case first argument) pairs. */
  datatype Perms = Perms(bits: set<nat>, pairs: set<(nat, string)>)

  /** The bits a rule writes, the commands whose first arguments it forgets, the pairs it adds. */
  datatype Effect = Effect(bits: set<nat>, reset: set<nat>, adds: set<(nat, string)>)

  function Apply(p: Perms, e: Effect, allow: bool): Perms {
    Perms(
      if allow then p.bits + Inside(e.bits) else p.bits - Inside(e.bits),
      (set x | x in p.pairs && x.0 !in e.reset) + e.adds)
  }

  function Pairs(args: map<nat, seq<string>>): set<(nat, string)> {
    set id, i | id in args && 0 <= i < |args[id]| :: (id, ToLower(args[id][i]))
  }

  function PermsOf(s: Selector): Perms {
    Perms(s.bits, Pairs(s.args))
  }

  /** The effect of the rule with this lower-case name, if it is a rule of the table. */
  function EffectOf(t: Table, name: string, allow: bool): Option<Effect> {
    if name == "" then None
    else if name[0] == '@' then
      if name[1..] in t.categories && t.categories[name[1..]] != 0 then
        Some(Effect(CategoryBits(t, t.categories[name[1..]]), CategoryIds(t, t.categories[name[1..]]), {}))
      else None
    else
      var f := Lookup(t, name);
      if !f.NotFound? then Some(Effect(FoundBits(f), {FoundId(f)}, {}))
      else FirstArgEffect(t, name, allow)
  }

  function FirstArgEffect(t: Table, name: string, allow: bool): Option<Effect> {
    var k := LastBar(name);
    if !allow || k == |name| || name[k + 1..] == "" then None
    else
      var g := Lookup(t, name[..k]);
      if g.Top? && g.cmd.subs.None? then Some(Effect({}, {}, {(g.cmd.id, name[k + 1..])})) else None
  }

  // ----- names and case -----

  lemma LowerBar(s: string)
    ensures forall i :: 0 <= i < |s| ==> (ToLower(s)[i] == '|' <==> s[i] == '|')
    ensures '|' in s <==> '|' in ToLower(s)
  {
    if '|' in s {
      var i :| 0 <= i < |s| && s[i] == '|';
      assert ToLower(s)[i] == '|';
    }
  }

  lemma {:induction false} BarFromLower(s: string, i: nat)
    requires i <= |s|
    ensures BarFrom(ToLower(s), i) == BarFrom(s, i)
    decreases |s| - i
  {
    LowerBar(s);
    if i < |s| && s[i] != '|' {
      BarFromLower(s, i + 1);
    }
  }

  lemma LastBarLower(s: string)
    ensures LastBar(ToLower(s)) == LastBar(s)
  {
    LowerBar(s);
    hide LastBar, ToLower;
    var j, k := LastBar(ToLower(s)), LastBar(s);
    assert j < |s| ==> s[j] == '|';
    assert k < |s| ==> ToLower(s)[k] == '|';
  }

  lemma LowerSlice(s: string, i: nat, j: nat)
    requires i <= j <= |s|
    ensures ToLower(s)[i..j] == ToLower(s[i..j])
  {
  }

  /** Commands are found whatever the case of the name. */
  lemma LookupLower(t: Table, name: string)
    ensures Lookup(t, ToLower(name)) == Lookup(t, name)
  {
    var k := BarFrom(name, 0);
    BarFromLower(name, 0);
    LowerSlice(name, 0, k);
    assert name[0..k] == name[..k] && ToLower(name)[0..k] == ToLower(name)[..k];
    ToLowerIdempotent(name[..k]);
    if k < |name| {
      LowerSlice(name, k + 1, |name|);
      assert name[k + 1..|name|] == name[k + 1..] && ToLower(name)[k + 1..|name|] == ToLower(name)[k + 1..];
      ToLowerIdempotent(name[k + 1..]);
      LowerBar(name[k + 1..]);
    }
  }

  /** The full name of a command found is the name it was found by, up to case. */
  lemma FoundName(t: Table, name: string)
    requires TableOk(t)
    requires !Lookup(t, name).NotFound?
    ensures ToLower(FullName(Lookup(t, name))) == ToLower(name)
  {
    hide GoodName, BarFrom, ToLower;
    var k := BarFrom(name, 0);
    var f := Lookup(t, name);
    var base := ToLower(name[..k]);
    assert base in t.commands;
    if f.Top? {
      assert name[..k] == name;
    } else {
      var j := ToLower(name[k + 1..]);
      assert SubsOk(base, t.commands[base].subs.value);
      assert j in t.commands[base].subs.value;
      assert name == name[..k] + "|" + name[k + 1..];
      LowerBarred(name[..k], name[k + 1..]);
    }
  }

  lemma LowerBarred(a: string, b: string)
    ensures ToLower(a + "|" + b) == ToLower(a) + "|" + ToLower(b)
  {
  }

  // ----- one operation -----

  lemma PairsReset(args: map<nat, seq<string>>, ids: set<nat>)
    ensures Pairs(args - ids) == set x | x in Pairs(args) && x.0 !in ids
  {
    var r := set x | x in Pairs(args) && x.0 !in ids;
    forall x | x in r
      ensures x in Pairs(args - ids)
    {
      var id, i :| id in args && 0 <= i < |args[id]| && x == (id, ToLower(args[id][i]));
      assert (args - ids)[id] == args[id];
    }
  }

  lemma PairsAdd(s: Selector, id: nat, arg: string)
    ensures Pairs(AddArg(s, id, arg).args) == Pairs(s.args) + {(id, ToLower(arg))}
  {
    var had := if id in s.args then s.args[id] else [];
    var s' := AddArg(s, id, arg);
    var p, p' := Pairs(s.args), Pairs(s'.args);
    if HasArg(had, arg) {
      var i :| 0 <= i < |had| && ToLower(had[i]) == ToLower(arg);
      assert (id, ToLower(s.args[id][i])) in p;
    } else {
      assert s'.args[id] == had + [arg];
      assert (id, ToLower(s'.args[id][|had|])) in p';
      forall x | x in p
        ensures x in p'
      {
        var d, i :| d in s.args && 0 <= i < |s.args[d]| && x == (d, ToLower(s.args[d][i]));
        assert s'.args[d][i] == s.args[d][i];
      }
      forall x | x in p'
        ensures x in p + {(id, ToLower(arg))}
      {
        var d, i :| d in s'.args && 0 <= i < |s'.args[d]| && x == (d, ToLower(s'.args[d][i]));
        if d == id && i < |had| {
          assert s.args[d][i] == s'.args[d][i];
        } else if d != id {
          assert s.args[d] == s'.args[d];
        }
      }
    }
  }

  lemma ChangeEffect(s: Selector, bits: set<nat>, ids: set<nat>, allow: bool)
    ensures PermsOf(ResetArgs(SetBits(s, bits, allow), ids)) == Apply(PermsOf(s), Effect(bits, ids, {}), allow)
  {
    PairsReset(s.args, ids);
  }

  /** An operation that is not one of the "all" operations, as a rule. */
  predicate IsRuleOp(op: string) {
    (At(op, 0) == '+' || At(op, 0) == '-') && !AllowAll(op) && !AllowNone(op)
  }

  /**
   Every rule operation succeeds or fails by its name alone, and when it
   succeeds it applies the effect of its lower-case name and files that name.
   */
  lemma SetSelectorEffect(t: Table, s: Selector, op: string)
    requires TableOk(t) && IsRuleOp(op)
    ensures var e := EffectOf(t, ToLower(op[1..]), op[0] == '+');
            var r := SetSelector(t, s, op);
            && (r.Done? <==> e.Some?)
            && (e.Some? ==> PermsOf(r.s) == Apply(PermsOf(s), e.value, op[0] == '+')
                            && r.s.rules == UpdateText(s.rules, op[1..], op[0] == '+'))
  {
    hide TableOk, Apply, UpdateText, Pairs;
    var name := op[1..];
    if At(op, 1) == '@' {
      CategoryOp(t, s, op);
    } else if op[0] == '+' && '|' in op {
      BarredOp(t, s, op);
    } else {
      PlainOp(t, s, op);
    }
  }

  lemma CategoryOp(t: Table, s: Selector, op: string)
    requires IsRuleOp(op) && At(op, 1) == '@'
    ensures var e := EffectOf(t, ToLower(op[1..]), op[0] == '+');
            var r := SetSelector(t, s, op);
            && (r.Done? <==> e.Some?)
            && (e.Some? ==> PermsOf(r.s) == Apply(PermsOf(s), e.value, op[0] == '+')
                            && r.s.rules == UpdateText(s.rules, op[1..], op[0] == '+'))
  {
    hide Apply, UpdateText, Pairs, AllowAll, AllowNone, CategoryBits, CategoryIds, SetBits;
    var name := ToLower(op[1..]);
    assert name[0] == '@';
    assert name[1..] == ToLower(op[2..]);
    if name[1..] in t.categories {
      var flag := t.categories[name[1..]];
      ChangeEffect(UpdateRules(s, op[1..], op[0] == '+'), CategoryBits(t, flag), CategoryIds(t, flag), op[0] == '+');
      assert SetBits(UpdateRules(s, op[1..], op[0] == '+'), CategoryBits(t, flag), op[0] == '+').rules
          == UpdateText(s.rules, op[1..], op[0] == '+') by {
        SetBitsRules(UpdateRules(s, op[1..], op[0] == '+'), CategoryBits(t, flag), op[0] == '+');
      }
    }
  }

  lemma SetBitsRules(s: Selector, ids: set<nat>, allow: bool)
    ensures SetBits(s, ids, allow).rules == s.rules
    ensures SetBits(s, ids, allow).args == s.args
  {
  }

  /** The rule text depends on the name only up to case. */
  lemma UpdateTextLower(text: string, a: string, b: string, allow: bool)
    requires ToLower(a) == ToLower(b)
    ensures UpdateText(text, a, allow) == UpdateText(text, b, allow)
  {
  }

  lemma FoundOp(t: Table, s: Selector, name: string, allow: bool)
    requires TableOk(t)
    requires !Lookup(t, name).NotFound? && name != "" && name[0] != '@'
    ensures var f := Lookup(t, name);
            var s' := UpdateRules(ChangePerm(s, f, allow), FullName(f), allow);
            var e := EffectOf(t, ToLower(name), allow);
            && e.Some?
            && PermsOf(s') == Apply(PermsOf(s), e.value, allow)
            && s'.rules == UpdateText(s.rules, name, allow)
            && s' == UpdateRules(ChangePerm(s, f, allow), name, allow)
  {
    hide TableOk, Apply, UpdateText, Pairs, SetBits, Lookup, FoundBits, FoundId;
    var f := Lookup(t, name);
    LookupLower(t, name);
    FoundName(t, name);
    UpdateTextLower(s.rules, FullName(f), name, allow);
    ChangeEffect(s, FoundBits(f), {FoundId(f)}, allow);
    SetBitsRules(s, FoundBits(f), allow);
    NotAt(name);
  }

  lemma NotAt(name: string)
    requires name != "" && name[0] != '@'
    ensures ToLower(name) != "" && ToLower(name)[0] != '@'
  {
  }

  lemma PlainOp(t: Table, s: Selector, op: string)
    requires TableOk(t) && IsRuleOp(op) && At(op, 1) != '@'
    requires op[0] == '-' || '|' !in op
    ensures var e := EffectOf(t, ToLower(op[1..]), op[0] == '+');
            var r := SetSelector(t, s, op);
            && (r.Done? <==> e.Some?)
            && (e.Some? ==> PermsOf(r.s) == Apply(PermsOf(s), e.value, op[0] == '+')
                            && r.s.rules == UpdateText(s.rules, op[1..], op[0] == '+'))
  {
    hide TableOk, Apply, UpdateText, Pairs, Lookup, AllowAll, AllowNone, ChangePerm;
    var name := op[1..];
    LookupLower(t, name);
    if Lookup(t, name).NotFound? {
      NoFirstArg(t, name, op[0] == '+');
      if name != "" { NotAt(name); }
    } else {
      FoundNonEmpty(t, name);
      FoundOp(t, s, name, op[0] == '+');
    }
  }

  lemma FoundNonEmpty(t: Table, name: string)
    requires !Lookup(t, name).NotFound?
    ensures name != ""
  {
  }

  lemma NoFirstArg(t: Table, name: string, allow: bool)
    requires !allow || '|' !in name
    ensures FirstArgEffect(t, ToLower(name), allow) == None
  {
    LowerBar(name);
  }

  lemma BarredOp(t: Table, s: Selector, op: string)
    requires TableOk(t) && IsRuleOp(op) && At(op, 1) != '@'
    requires op[0] == '+' && '|' in op
    ensures var e := EffectOf(t, ToLower(op[1..]), true);
            var r := SetSelector(t, s, op);
            && (r.Done? <==> e.Some?)
            && (e.Some? ==> PermsOf(r.s) == Apply(PermsOf(s), e.value, true)
                            && r.s.rules == UpdateText(s.rules, op[1..], true))
  {
    hide TableOk, Apply, UpdateText, Pairs, Lookup, AllowAll, AllowNone, ChangePerm, AddArg, LastBar;
    var name := op[1..];
    var k := LastBar(op);
    BarOfTail(op);
    var base, sub := name[..k - 1], name[k..];
    assert op[1..k] == base && op[k + 1..] == sub;
    LookupLower(t, name);
    LookupLower(t, base);
    LowerSplit(name, k - 1);
    NotAt(name);
    BarredLookup(t, name, k - 1);
    var f := Lookup(t, base);
    if f.Top? && sub != "" && f.cmd.subs.None? {
      PairsAdd(s, f.cmd.id, sub);
      AddEffect(PermsOf(s), f.cmd.id, ToLower(sub));
      AddArgRules(s, f.cmd.id, sub);
    } else if f.Top? && sub != "" && !Lookup(t, name).NotFound? {
      FoundOp(t, s, name, true);
    }
  }

  lemma AddArgRules(s: Selector, id: nat, arg: string)
    ensures AddArg(s, id, arg).rules == s.rules && AddArg(s, id, arg).bits == s.bits
  {
  }

  lemma AddEffect(p: Perms, id: nat, arg: string)
    ensures Apply(p, Effect({}, {}, {(id, arg)}), true) == Perms(p.bits, p.pairs + {(id, arg)})
  {
  }

  lemma BarOfTail(op: string)
    requires op != "" && op[0] == '+' && '|' in op
    ensures 1 <= LastBar(op) < |op|
    ensures LastBar(op[1..]) == LastBar(op) - 1
  {
    var k, j := LastBar(op), LastBar(op[1..]);
    assert op[1..][k - 1] == '|';
    assert forall i :: 0 <= i < |op| - 1 ==> op[1..][i] == op[i + 1];
    assert j < |op| - 1 ==> op[j + 1] == '|';
  }

  lemma LowerSplit(name: string, k: nat)
    requires k < |name| && k == LastBar(name)
    ensures LastBar(ToLower(name)) == k
    ensures ToLower(name)[..k] == ToLower(name[..k])
    ensures ToLower(name)[k + 1..] == ToLower(name[k + 1..])
  {
    hide LastBar, ToLower;
    LastBarLower(name);
    LowerSlice(name, 0, k);
    LowerSlice(name, k + 1, |name|);
    assert name[..k] == name[0..k] && name[k + 1..] == name[k + 1..|name|];
    assert ToLower(name)[..k] == ToLower(name)[0..k] && ToLower(name)[k + 1..] == ToLower(name)[k + 1..|name|];
  }

  /** A barred name is found only as the subcommand of a container. */
  lemma BarredLookup(t: Table, name: string, k: nat)
    requires TableOk(t)
    requires k < |name| && k == LastBar(name)
    ensures !Lookup(t, name).NotFound? ==>
              Lookup(t, name[..k]).Top? && Lookup(t, name[..k]).cmd.subs.Some? && name[k + 1..] != ""
  {
    hide ToLower, LastBar, CleanText;
    if !Lookup(t, name).NotFound? {
      var b := BarFrom(name, 0);
      OnlyBar(name, b, k);
      assert name[..k][..k] == name[..k];
      var base := ToLower(name[..k]);
      assert base in t.commands;
      assert GoodName(base);
      assert SubsOk(base, t.commands[base].subs.value);
      assert GoodName(ToLower(name[k + 1..]));
      LowerEmpty(name[k + 1..]);
    }
  }

  lemma LowerEmpty(s: string)
    ensures ToLower(s) == "" <==> s == ""
  {
  }

  lemma OnlyBar(name: string, b: nat, k: nat)
    requires k < |name| && k == LastBar(name) && b == BarFrom(name, 0)
    requires b == |name| || '|' !in name[b + 1..]
    ensures b == k && BarFrom(name[..k], 0) == k
  {
    assert forall i :: b < i < |name| ==> name[b + 1..][i - b - 1] == name[i];
    assert forall i :: 0 <= i < k ==> name[..k][i] == name[i];
  }
}
