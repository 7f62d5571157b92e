/**
 The selector and the command ids as the server keeps them, updated in place
 (acl.c). Every method is tied to the function of module Acl it computes.
 */
module AclSelector {
  import opened Sds
  import opened Acl
  import opened AclDescribe

  lemma SetBitsTwice(s: Selector, a: set<nat>, b: set<nat>, allow: bool)
    ensures SetBits(SetBits(s, a, allow), b, allow) == SetBits(s, a + b, allow)
  {
    assert Inside(a + b) == Inside(a) + Inside(b);
    hide Inside;
    if allow {
      assert s.bits + Inside(a) + Inside(b) == s.bits + Inside(a + b);
    } else {
      assert s.bits - Inside(a) - Inside(b) == s.bits - Inside(a + b);
    }
  }

  lemma SetNothing(s: Selector, allow: bool)
    ensures SetBits(s, {}, allow) == s
  {
    assert Inside({}) == {};
  }

  /** Bits and resets of several commands, gathered. */
  lemma ChangeTwice(s: Selector, a: set<nat>, ra: set<nat>, b: set<nat>, rb: set<nat>, allow: bool)
    ensures ResetArgs(SetBits(ResetArgs(SetBits(s, a, allow), ra), b, allow), rb)
         == ResetArgs(SetBits(s, a + b, allow), ra + rb)
  {
    SetBitsTwice(s, a, b, allow);
    assert s.args - ra - rb == s.args - (ra + rb);
  }

  /** What a category rule does for the commands of a set of names. */
  function IdsOver(t: Table, flag: bv64, keys: set<string>): set<nat>
    requires keys <= t.commands.Keys
  {
    (set k | k in keys && InCategory(t.commands[k].categories, flag) :: t.commands[k].id)
    + (set k, j | k in keys && t.commands[k].subs.Some? && j in t.commands[k].subs.value
                  && InCategory(t.commands[k].subs.value[j].categories, flag)
       :: t.commands[k].subs.value[j].id)
  }

  function ContainerSubs(t: Table, flag: bv64, keys: set<string>): set<nat>
    requires keys <= t.commands.Keys
  {
    set k, j | k in keys && InCategory(t.commands[k].categories, flag)
               && t.commands[k].subs.Some? && j in t.commands[k].subs.value
    :: t.commands[k].subs.value[j].id
  }

  function BitsOver(t: Table, flag: bv64, keys: set<string>): set<nat>
    requires keys <= t.commands.Keys
  {
    IdsOver(t, flag, keys) + ContainerSubs(t, flag, keys)
  }

  lemma OverAll(t: Table, flag: bv64)
    ensures IdsOver(t, flag, t.commands.Keys) == CategoryIds(t, flag)
    ensures BitsOver(t, flag, t.commands.Keys) == CategoryBits(t, flag)
  {
  }

  function SubsInCategory(subs: map<string, Sub>, flag: bv64, keys: set<string>): set<nat>
    requires keys <= subs.Keys
  {
    set j | j in keys && InCategory(subs[j].categories, flag) :: subs[j].id
  }

  function OwnIds(c: Command, flag: bv64): set<nat> {
    if InCategory(c.categories, flag) then {c.id} else {}
  }

  function OwnBits(c: Command, flag: bv64): set<nat> {
    if InCategory(c.categories, flag) then {c.id} + SubIds(c) else {}
  }

  function SubsOf(c: Command, flag: bv64): set<nat> {
    if c.subs.Some? then SubsInCategory(c.subs.value, flag, c.subs.value.Keys) else {}
  }

  /** One more command of a category rule. */
  lemma IdsOverOne(t: Table, flag: bv64, keys: set<string>, k: string)
    requires keys <= t.commands.Keys && k in t.commands
    ensures IdsOver(t, flag, keys + {k}) == IdsOver(t, flag, keys) + (OwnIds(t.commands[k], flag) + SubsOf(t.commands[k], flag))
  {
    hide InCategory;
  }

  lemma BitsOverOne(t: Table, flag: bv64, keys: set<string>, k: string)
    requires keys <= t.commands.Keys && k in t.commands
    ensures BitsOver(t, flag, keys + {k}) == BitsOver(t, flag, keys) + (OwnBits(t.commands[k], flag) + SubsOf(t.commands[k], flag))
  {
    IdsOverOne(t, flag, keys, k);
    ContainerOne(t, flag, keys, k);
    hide IdsOver, SubsOf, InCategory, ContainerSubs, SubIds;
  }

  lemma ContainerOne(t: Table, flag: bv64, keys: set<string>, k: string)
    requires keys <= t.commands.Keys && k in t.commands
    ensures ContainerSubs(t, flag, keys + {k})
         == ContainerSubs(t, flag, keys) + (if InCategory(t.commands[k].categories, flag) then SubIds(t.commands[k]) else {})
  {
    hide InCategory;
  }

  lemma SetOne(s: Selector, id: nat, allow: bool)
    ensures SetBits(s, {id}, allow)
         == if id >= USER_COMMAND_BITS_COUNT then s
            else if allow then s.(bits := s.bits + {id})
            else s.(bits := s.bits - {id}, allCommands := false)
  {
    assert Inside({id}) == if id < USER_COMMAND_BITS_COUNT then {id} else {};
    assert {id} != {};
  }

  class AclSelector {
    var bits: set<nat>
    var args: map<nat, seq<string>>
    var commandRules: string
    var allCommands: bool

    function View(): Selector
      reads this
    {
      Selector(bits, args, commandRules, allCommands)
    }

    /** ACLCreateSelector */
    constructor ()
      ensures View() == NO_PERMISSIONS
    {
      bits, args, commandRules, allCommands := {}, map[], "", false;
    }

    /** ACLSetSelectorCommandBit */
    method SetCommandBit(id: nat, allow: bool)
      modifies this`bits, this`allCommands
      ensures View() == SetBits(old(View()), {id}, allow)
    {
      SetOne(View(), id, allow);
      hide SetBits;
      if id < USER_COMMAND_BITS_COUNT {
        if allow {
          bits := bits + {id};
        } else {
          bits := bits - {id};
          allCommands := false;
        }
      }
    }

    /** ACLSelectorRemoveCommandRule: scan the text, closing the gap over each removed rule. */
    method RemoveCommandRule(newRule: string)
      modifies this`commandRules
      ensures commandRules == RemoveText(old(commandRules), 0, newRule)
    {
      hide Overrides;
      var existing := 0;
      while existing < |commandRules|
        invariant 0 <= existing <= |commandRules|
        invariant RemoveText(commandRules, existing, newRule) == RemoveText(old(commandRules), 0, newRule)
        decreases |commandRules| - existing
      {
        var copyPosition := existing;
        var ruleEnd := BlankFrom(commandRules, existing + 1);
        if ruleEnd == |commandRules| && copyPosition != 0 {
          copyPosition := copyPosition - 1;
        }
        var copyEnd := if ruleEnd < |commandRules| then ruleEnd + 1 else ruleEnd;
        if Overrides(newRule, commandRules[existing..ruleEnd]) {
          commandRules := commandRules[..copyPosition] + commandRules[copyEnd..];
          existing := copyPosition;
        } else {
          existing := copyEnd;
        }
      }
    }

    /** ACLUpdateCommandRules */
    method UpdateCommandRules(rule: string, allow: bool)
      modifies this`commandRules
      ensures View() == UpdateRules(old(View()), rule, allow)
    {
      hide RemoveText;
      var newRule := ToLower(rule);
      RemoveCommandRule(newRule);
      if commandRules != "" {
        commandRules := commandRules + " ";
      }
      commandRules := commandRules + [if allow then '+' else '-'] + newRule;
    }

    /** The bits of all subcommands of a container, in whatever order the dictionary gives them. */
    method SetSubcommandBits(subs: map<string, Sub>, allow: bool)
      modifies this`bits, this`allCommands
      ensures View() == SetBits(old(View()), set j | j in subs :: subs[j].id, allow)
    {
      hide SetBits;
      var rest := subs.Keys;
      ghost var s0, ids := View(), {};
      SetNothing(s0, allow);
      while rest != {}
        invariant rest <= subs.Keys
        invariant ids == set j | j in subs.Keys - rest :: subs[j].id
        invariant View() == SetBits(s0, ids, allow)
        decreases |rest|
      {
        var j :| j in rest;
        SetCommandBit(subs[j].id, allow);
        SetBitsTwice(s0, ids, {subs[j].id}, allow);
        ids := ids + {subs[j].id};
        rest := rest - {j};
      }
      assert ids == set j | j in subs :: subs[j].id;
    }

    /** ACLChangeSelectorPerm: the command, and every subcommand of a container. */
    method ChangeSelectorPerm(f: Found, allow: bool)
      requires !f.NotFound?
      modifies this`bits, this`allCommands, this`args
      ensures View() == ChangePerm(old(View()), f, allow)
    {
      hide SetBits;
      var id := if f.Top? then f.cmd.id else f.sub.id;
      ghost var s0 := View();
      SetCommandBit(id, allow);
      args := args - {id};
      if f.Top? && f.cmd.subs.Some? {
        ghost var s1 := View();
        SetSubcommandBits(f.cmd.subs.value, allow);
        ChangeTwice(s0, {id}, {id}, SubIds(f.cmd), {}, allow);
        assert {id} + {} == {id};
        assert View() == ResetArgs(View(), {}) by {
          assert View().args - {} == View().args;
        }
      } else {
        assert FoundBits(f) == {id};
      }
    }

    /** The subcommands of a container that are in a category, one by one. */
    method SetSubcommandsInCategory(c: Command, flag: bv64, allow: bool)
      requires c.subs.Some?
      modifies this`bits, this`allCommands, this`args
      ensures View() == ResetArgs(SetBits(old(View()), SubsOf(c, flag), allow), SubsOf(c, flag))
    {
      hide SetBits, InCategory, ResetArgs;
      var subs := c.subs.value;
      var rest := subs.Keys;
      ghost var s0, done := View(), {};
      NothingChanged(s0, allow);
      while rest != {}
        invariant rest <= subs.Keys
        invariant done == SubsInCategory(subs, flag, subs.Keys - rest)
        invariant View() == ResetArgs(SetBits(s0, done, allow), done)
        decreases |rest|
      {
        var j :| j in rest;
        assert subs.Keys - (rest - {j}) == (subs.Keys - rest) + {j};
        if InCategory(subs[j].categories, flag) {
          var f := SubOf(c, subs[j]);
          ChangeSelectorPerm(f, allow);
          var id := subs[j].id;
          ChangeTwice(s0, done, done, {id}, {id}, allow);
          done := done + {id};
        }
        rest := rest - {j};
      }
      assert subs.Keys - {} == subs.Keys;
    }

    /** ACLSetSelectorCommandBitsForCategory over the whole table. */
    method SetCommandBitsForCategory(t: Table, flag: bv64, allow: bool)
      modifies this`bits, this`allCommands, this`args
      ensures View() == SetCategory(old(View()), t, flag, allow)
    {
      hide SetBits, InCategory, ResetArgs, BitsOver, IdsOver, SubsOf, SubIds, CategoryIds, CategoryBits;
      var rest := t.commands.Keys;
      ghost var s0, b, r := View(), {}, {};
      NothingChanged(s0, allow);
      OverNone(t, flag);
      assert t.commands.Keys - rest == {};
      while rest != {}
        invariant rest <= t.commands.Keys
        invariant b == BitsOver(t, flag, t.commands.Keys - rest)
        invariant r == IdsOver(t, flag, t.commands.Keys - rest)
        invariant View() == ResetArgs(SetBits(s0, b, allow), r)
        decreases |rest|
      {
        var k :| k in rest;
        assert t.commands.Keys - (rest - {k}) == (t.commands.Keys - rest) + {k};
        IdsOverOne(t, flag, t.commands.Keys - rest, k);
        BitsOverOne(t, flag, t.commands.Keys - rest, k);
        ApplyCategoryToCommand(t.commands[k], flag, allow);
        ChangeTwice(s0, b, r, OwnBits(t.commands[k], flag) + SubsOf(t.commands[k], flag),
                    OwnIds(t.commands[k], flag) + SubsOf(t.commands[k], flag), allow);
        b := b + (OwnBits(t.commands[k], flag) + SubsOf(t.commands[k], flag));
        r := r + (OwnIds(t.commands[k], flag) + SubsOf(t.commands[k], flag));
        rest := rest - {k};
      }
      assert t.commands.Keys - {} == t.commands.Keys;
      OverAll(t, flag);
    }

    /** One command of the table: itself if in the category, then its subcommands. */
    method ApplyCategoryToCommand(c: Command, flag: bv64, allow: bool)
      modifies this`bits, this`allCommands, this`args
      ensures View() == ResetArgs(SetBits(old(View()), OwnBits(c, flag) + SubsOf(c, flag), allow),
                                  OwnIds(c, flag) + SubsOf(c, flag))
    {
      hide SetBits, InCategory, ResetArgs, SubIds, SubsInCategory;
      ghost var s0 := View();
      NothingChanged(s0, allow);
      if InCategory(c.categories, flag) {
        ChangeSelectorPerm(Top(c), allow);
      }
      assert View() == ResetArgs(SetBits(s0, OwnBits(c, flag), allow), OwnIds(c, flag));
      if c.subs.Some? {
        SetSubcommandsInCategory(c, flag, allow);
        ChangeTwice(s0, OwnBits(c, flag), OwnIds(c, flag), SubsOf(c, flag), SubsOf(c, flag), allow);
      } else {
        assert OwnBits(c, flag) + SubsOf(c, flag) == OwnBits(c, flag);
        assert OwnIds(c, flag) + SubsOf(c, flag) == OwnIds(c, flag);
      }
    }

    /** ACLSetSelector, command branches: on an error nothing changes. */
    method SetSelectorOp(t: Table, op: string) returns (r: Outcome)
      modifies this
      ensures r == SetSelector(t, old(View()), op)
      ensures View() == if r.Done? then r.s else old(View())
    {
      hide ChangePerm, SetCategory, UpdateRules, AllowAll, AllowNone, Lookup, LastBar;
      ghost var s0 := View();
      if AllowAll(op) {
        bits, allCommands, commandRules, args := AllBits(), true, "", map[];
        return Done(View());
      }
      if AllowNone(op) {
        bits, allCommands, commandRules, args := {}, false, "", map[];
        return Done(View());
      }
      if At(op, 0) == '+' && At(op, 1) != '@' && '|' in op {
        r := AllowBarredOp(t, op);
        return;
      }
      if (At(op, 0) == '+' || At(op, 0) == '-') && At(op, 1) != '@' {
        var f := Lookup(t, op[1..]);
        if f.NotFound? {
          return Failed(ENOENT);
        }
        ChangeSelectorPerm(f, op[0] == '+');
        UpdateCommandRules(FullName(f), op[0] == '+');
        return Done(View());
      }
      if At(op, 0) == '+' || At(op, 0) == '-' {
        var category := ToLower(op[2..]);
        if category !in t.categories || t.categories[category] == 0 {
          return Failed(ENOENT);
        }
        UpdateCommandRules(op[1..], op[0] == '+');
        SetCommandBitsForCategory(t, t.categories[category], op[0] == '+');
        return Done(View());
      }
      return Other;
    }

    /** +command|subcommand and +command|first-arg */
    method AllowBarredOp(t: Table, op: string) returns (r: Outcome)
      requires At(op, 0) == '+' && '|' in op
      modifies this
      ensures r == AllowBarred(t, old(View()), op)
      ensures View() == if r.Done? then r.s else old(View())
    {
      hide ChangePerm, UpdateRules, Lookup, LastBar;
      var k := LastBar(op);
      var sub := op[k + 1..];
      var f := Lookup(t, op[1..k]);
      if f.NotFound? {
        return Failed(ENOENT);
      }
      if f.SubOf? {
        return Failed(ECHILD);
      }
      if sub == "" {
        return Failed(EINVAL);
      }
      if f.cmd.subs.Some? {
        var g := Lookup(t, op[1..]);
        if g.NotFound? {
          return Failed(ENOENT);
        }
        ChangeSelectorPerm(g, true);
      } else {
        AddAllowedFirstArg(f.cmd.id, sub);
      }
      UpdateCommandRules(op[1..], true);
      return Done(View());
    }

    /** ACLAddAllowedFirstArg: look through the list, then append. */
    method AddAllowedFirstArg(id: nat, arg: string)
      modifies this`args
      ensures View() == AddArg(old(View()), id, arg)
    {
      var items := 0;
      var had := if id in args then args[id] else [];
      while items < |had|
        invariant 0 <= items <= |had|
        invariant forall i :: 0 <= i < items ==> ToLower(had[i]) != ToLower(arg)
      {
        if ToLower(had[items]) == ToLower(arg) {
          return;
        }
        items := items + 1;
      }
      args := args[id := had + [arg]];
    }
  }

  lemma NothingChanged(s: Selector, allow: bool)
    ensures ResetArgs(SetBits(s, {}, allow), {}) == s
  {
    SetNothing(s, allow);
    assert s.args - {} == s.args;
  }

  lemma OverNone(t: Table, flag: bv64)
    ensures BitsOver(t, flag, {}) == {} && IdsOver(t, flag, {}) == {}
  {
  }

  /** The ids handed out to commands: ACLGetCommandID. */
  class CommandIds {
    var ids: map<string, nat>
    var nextId: nat

    predicate Valid()
      reads this
    {
      && nextId != RESERVED_BIT
      && (forall n :: n in ids ==> ids[n] < nextId && ids[n] != RESERVED_BIT)
      && (forall m, n :: m in ids && n in ids && m != n ==> ids[m] != ids[n])
    }

    constructor ()
      ensures Valid() && ids == map[]
    {
      ids, nextId := map[], 0;
    }

    /** The same name, in any case, always gets the same id; no id is shared or reserved. */
    method GetCommandId(name: string) returns (id: nat)
      requires Valid()
      modifies this
      ensures Valid()
      ensures ids.Keys == old(ids).Keys + {ToLower(name)}
      ensures ToLower(name) in ids && id == ids[ToLower(name)] && id != RESERVED_BIT
      ensures forall n :: n in old(ids) ==> ids[n] == old(ids)[n]
    {
      var lower := ToLower(name);
      if lower in ids {
        return ids[lower];
      }
      id := nextId;
      ids := ids[lower := id];
      nextId := nextId + 1;
      if nextId == USER_COMMAND_BITS_COUNT - 1 {
        nextId := nextId + 1;
      }
    }
  }
}
