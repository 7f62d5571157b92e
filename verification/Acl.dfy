/**
 ACL command rules (acl.c): a selector's command bitmap and allowed first
 arguments, and the list of rules kept to regenerate them.

 Names are C strings, so they hold no terminator.
 */
module Acl {
  import opened Sds

  const USER_COMMAND_BITS_COUNT: nat := 1024

  /** The bit that only +@all sets: "may run commands that do not exist yet". */
  const RESERVED_BIT: nat := 1023

  // ----- the command table -----

  datatype Sub = Sub(id: nat, fullname: string, categories: bv64)

  /** A command; `subs` is None when the command has no subcommand dictionary. */
  datatype Command = Command(id: nat, fullname: string, categories: bv64, subs: Option<map<string, Sub>>)

  /** The commands by lower-case name, and the category flags by lower-case name. */
  datatype Table = Table(commands: map<string, Command>, categories: map<string, bv64>)

  /** A name that can stand in a rule: lower case, free of blanks and quotes, no bar. */
  predicate GoodName(n: string) {
    n != "" && CleanText(n) && ToLower(n) == n && '|' !in n && n[0] != '@'
  }

  /**
   What the server keeps of its command table: names as the dictionaries see
   them, no command on the reserved bit, and no id shared by a subcommand and
   a command without subcommands.
   */
  predicate TableOk(t: Table) {
    && (forall k :: k in t.commands ==>
          var c := t.commands[k];
          && GoodName(k) && ToLower(c.fullname) == k && c.id != RESERVED_BIT
          && (c.subs.Some? ==> SubsOk(k, c.subs.value)))
    && (forall k :: k in t.categories ==> k != "" && CleanText(k) && ToLower(k) == k && '|' !in k)
    && "all" !in t.categories
    && (forall k, j, m :: k in t.commands && t.commands[k].subs.Some? && j in t.commands[k].subs.value
                          && m in t.commands && t.commands[m].subs.None?
          ==> t.commands[k].subs.value[j].id != t.commands[m].id)
  }

  predicate SubsOk(parent: string, subs: map<string, Sub>) {
    forall j :: j in subs ==>
      GoodName(j) && ToLower(subs[j].fullname) == parent + "|" + j && subs[j].id != RESERVED_BIT
  }

  datatype Found = NotFound | Top(cmd: Command) | SubOf(parent: Command, sub: Sub)

  /** The first bar from position `i` on, or the length. */
  function BarFrom(s: string, i: nat): (k: nat)
    requires i <= |s|
    ensures i <= k <= |s|
    ensures forall j :: i <= j < k ==> s[j] != '|'
    ensures k < |s| ==> s[k] == '|'
    decreases |s| - i
  {
    if i == |s| || s[i] == '|' then i else BarFrom(s, i + 1)
  }

  /** The last bar, or the length when there is none (strrchr). */
  function LastBar(s: string): (k: nat)
    ensures k <= |s|
    ensures k < |s| ==> s[k] == '|' && forall j :: k < j < |s| ==> s[j] != '|'
    ensures k == |s| ==> forall j :: 0 <= j < |s| ==> s[j] != '|'
  {
    if s == "" then 0
    else if s[|s| - 1] == '|' then |s| - 1
    else
      var init := s[..|s| - 1];
      var k := LastBar(init);
      assert forall j :: 0 <= j < |init| ==> s[j] == init[j];
      if k == |init| then |s| else k
  }

  /** ACLLookupCommand: a name, or container|subcommand, of any case. */
  function Lookup(t: Table, name: string): Found {
    var k := BarFrom(name, 0);
    var base := ToLower(name[..k]);
    if name == "" || base !in t.commands then NotFound
    else
      var c := t.commands[base];
      if k == |name| then Top(c)
      else
        var sub := name[k + 1..];
        if '|' in sub || c.subs.None? then NotFound
        else if ToLower(sub) in c.subs.value then SubOf(c, c.subs.value[ToLower(sub)])
        else NotFound
  }

  function FullName(f: Found): string
    requires !f.NotFound?
  {
    if f.Top? then f.cmd.fullname else f.sub.fullname
  }

  // ----- selectors -----

  /**
   A selector: the set bits of the command bitmap, the allowed first
   arguments by command id, the text of the rules, and the ALLCOMMANDS flag.
   */
  datatype Selector = Selector(bits: set<nat>, args: map<nat, seq<string>>, rules: string, allCommands: bool)

  /** ACLCreateSelector: no permissions. */
  const NO_PERMISSIONS := Selector({}, map[], "", false)

  predicate InBitmap(i: nat) {
    i < USER_COMMAND_BITS_COUNT
  }

  function AllBits(): set<nat> {
    set i: nat | i < USER_COMMAND_BITS_COUNT && InBitmap(i)
  }

  function Inside(ids: set<nat>): set<nat> {
    set i | i in ids && InBitmap(i)
  }

  /** Bits outside the bitmap are ignored; clearing a bit also clears ALLCOMMANDS. */
  function SetBits(s: Selector, ids: set<nat>, allow: bool): Selector {
    if allow then s.(bits := s.bits + Inside(ids))
    else s.(bits := s.bits - Inside(ids), allCommands := s.allCommands && Inside(ids) == {})
  }

  function ResetArgs(s: Selector, ids: set<nat>): Selector {
    s.(args := s.args - ids)
  }

  predicate HasArg(args: seq<string>, arg: string) {
    exists i :: 0 <= i < |args| && ToLower(args[i]) == ToLower(arg)
  }

  /** ACLAddAllowedFirstArg: not added again if present in any case. */
  function AddArg(s: Selector, id: nat, arg: string): Selector {
    var had := if id in s.args then s.args[id] else [];
    if HasArg(had, arg) then s else s.(args := s.args[id := had + [arg]])
  }

  function SubIds(c: Command): set<nat> {
    if c.subs.None? then {} else set j | j in c.subs.value :: c.subs.value[j].id
  }

  function FoundId(f: Found): nat
    requires !f.NotFound?
  {
    if f.Top? then f.cmd.id else f.sub.id
  }

  /** The bits of a command, with those of its subcommands. */
  function FoundBits(f: Found): set<nat>
    requires !f.NotFound?
  {
    if f.Top? then {f.cmd.id} + SubIds(f.cmd) else {f.sub.id}
  }

  /** ACLChangeSelectorPerm */
  function ChangePerm(s: Selector, f: Found, allow: bool): Selector
    requires !f.NotFound?
  {
    ResetArgs(SetBits(s, FoundBits(f), allow), {FoundId(f)})
  }

  predicate InCategory(categories: bv64, flag: bv64) {
    categories & flag != 0
  }

  /** The commands and subcommands of a category: their own ids. */
  function CategoryIds(t: Table, flag: bv64): set<nat> {
    (set k | k in t.commands && InCategory(t.commands[k].categories, flag) :: t.commands[k].id)
    + (set k, j | k in t.commands && t.commands[k].subs.Some? && j in t.commands[k].subs.value
                  && InCategory(t.commands[k].subs.value[j].categories, flag)
       :: t.commands[k].subs.value[j].id)
  }

  /** All bits a category rule sets: a container in the category brings all its subcommands. */
  function CategoryBits(t: Table, flag: bv64): set<nat> {
    CategoryIds(t, flag)
    + (set k, j | k in t.commands && InCategory(t.commands[k].categories, flag)
                  && t.commands[k].subs.Some? && j in t.commands[k].subs.value
       :: t.commands[k].subs.value[j].id)
  }

  /** ACLSetSelectorCommandBitsForCategory */
  function SetCategory(s: Selector, t: Table, flag: bv64, allow: bool): Selector {
    ResetArgs(SetBits(s, CategoryBits(t, flag), allow), CategoryIds(t, flag))
  }

  // ----- the rule list -----

  /** Whether ACLSelectorRemoveCommandRule drops rule `e` (with its sign) for a new rule named `name`. */
  predicate Overrides(name: string, e: string) {
    |e| > 0 && (e[1..] == name || (|e| - 1 > |name| && e[1..][..|name|] == name && e[1..][|name|] == '|'))
  }

  function DropRules(rules: seq<string>, name: string): seq<string>
    decreases |rules|
  {
    if rules == [] then []
    else (if Overrides(name, rules[0]) then [] else [rules[0]]) + DropRules(rules[1..], name)
  }

  function BlankFrom(s: string, i: nat): (k: nat)
    requires i <= |s|
    ensures i <= k <= |s|
    ensures forall j :: i <= j < k ==> s[j] != ' '
    ensures k < |s| ==> s[k] == ' '
    decreases |s| - i
  {
    if i == |s| || s[i] == ' ' then i else BlankFrom(s, i + 1)
  }

  /** One turn of the scan: the buffer and position after looking at the rule at `pos`. */
  function RemoveStep(buf: string, pos: nat, name: string): (r: (string, nat))
    requires pos < |buf|
    ensures r.1 <= |r.0|
    ensures |r.0| - r.1 < |buf| - pos
  {
    var end := BlankFrom(buf, pos + 1);
    var copyPos := if end == |buf| && pos != 0 then pos - 1 else pos;
    var copyEnd := if end < |buf| then end + 1 else end;
    if Overrides(name, buf[pos..end]) then (buf[..copyPos] + buf[copyEnd..], copyPos)
    else (buf, copyEnd)
  }

  /** ACLSelectorRemoveCommandRule on the text of the rules. */
  function RemoveText(buf: string, pos: nat, name: string): string
    requires pos <= |buf|
    decreases |buf| - pos
  {
    if pos == |buf| then buf
    else
      var r := RemoveStep(buf, pos, name);
      RemoveText(r.0, r.1, name)
  }

  /** ACLUpdateCommandRules on the text of the rules. */
  function UpdateText(text: string, rule: string, allow: bool): string {
    var name := ToLower(rule);
    var kept := RemoveText(text, 0, name);
    (if kept == "" then "" else kept + " ") + [if allow then '+' else '-'] + name
  }

  function UpdateRules(s: Selector, rule: string, allow: bool): Selector {
    s.(rules := UpdateText(s.rules, rule, allow))
  }

  // ----- ACLSetSelector -----

  datatype Errno = ENOENT | ECHILD | EINVAL

  /** The result of an operation: done, an error, or an operation on keys or channels. */
  datatype Outcome = Done(s: Selector) | Failed(error: Errno) | Other

  predicate AllowAll(op: string) { SameCase(op, "allcommands") || SameCase(op, "+@all") }
  predicate AllowNone(op: string) { SameCase(op, "nocommands") || SameCase(op, "-@all") }

  /** The command branches of ACLSetSelector; the key and channel branches leave the command state alone. */
  function SetSelector(t: Table, s: Selector, op: string): Outcome {
    if AllowAll(op) then Done(Selector(AllBits(), map[], "", true))
    else if AllowNone(op) then Done(Selector({}, map[], "", false))
    else if At(op, 0) == '+' && At(op, 1) != '@' then
      if '|' !in op then
        var f := Lookup(t, op[1..]);
        if f.NotFound? then Failed(ENOENT)
        else Done(UpdateRules(ChangePerm(s, f, true), FullName(f), true))
      else AllowBarred(t, s, op)
    else if At(op, 0) == '-' && At(op, 1) != '@' then
      var f := Lookup(t, op[1..]);
      if f.NotFound? then Failed(ENOENT)
      else Done(UpdateRules(ChangePerm(s, f, false), FullName(f), false))
    else if (At(op, 0) == '+' || At(op, 0) == '-') && At(op, 1) == '@' then
      var category := ToLower(op[2..]);
      if category !in t.categories || t.categories[category] == 0 then Failed(ENOENT)
      else
        var allow := op[0] == '+';
        Done(SetCategory(UpdateRules(s, op[1..], allow), t, t.categories[category], allow))
    else Other
  }

  /** +command|subcommand, or the first-argument form for a command without subcommands. */
  function AllowBarred(t: Table, s: Selector, op: string): Outcome
    requires At(op, 0) == '+' && '|' in op
  {
    var k := LastBar(op);
    var sub := op[k + 1..];
    var f := Lookup(t, op[1..k]);
    if f.NotFound? then Failed(ENOENT)
    else if f.SubOf? then Failed(ECHILD)
    else if sub == "" then Failed(EINVAL)
    else if f.cmd.subs.Some? then
      var g := Lookup(t, op[1..]);
      if g.NotFound? then Failed(ENOENT)
      else Done(UpdateRules(ChangePerm(s, g, true), op[1..], true))
    else Done(UpdateRules(AddArg(s, f.cmd.id, sub), op[1..], true))
  }
}
