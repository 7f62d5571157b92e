/**
 The text of the retained rules: the in-place scan that removes overridden
 rules acts on the list of rules that the text spells.
 */
module AclText {
  import opened Sds
  import opened Acl

  /** A rule as it stands in the text. */
  predicate RuleText(r: string) {
    r != "" && ' ' !in r
  }

  predicate AllRuleText(rules: seq<string>) {
    forall i :: 0 <= i < |rules| ==> RuleText(rules[i])
  }

  /** The text before the next rule. */
  function Lead(kept: seq<string>): string {
    if kept == [] then "" else Join(kept) + " "
  }

  lemma {:induction false} JoinSnoc(kept: seq<string>, r: string)
    ensures Join(kept + [r]) == Lead(kept) + r
    decreases |kept|
  {
    if |kept| == 0 {
      assert kept + [r] == [r];
    } else {
      assert (kept + [r])[1..] == kept[1..] + [r];
      JoinSnoc(kept[1..], r);
      if |kept| == 1 {
        assert kept[1..] == [];
        assert Join(kept + [r]) == kept[0] + " " + ("" + r);
      }
    }
  }

  lemma JoinNonEmpty(kept: seq<string>)
    requires kept != [] && AllRuleText(kept)
    ensures Join(kept) != ""
  {
  }

  lemma {:induction false} BlankAfter(pre: string, r: string, post: string, i: nat)
    requires ' ' !in r && (post == "" || post[0] == ' ')
    requires |pre| <= i <= |pre| + |r|
    ensures BlankFrom(pre + r + post, i) == |pre| + |r|
    decreases |pre| + |r| - i
  {
    var s := pre + r + post;
    if i < |pre| + |r| {
      assert s[i] == r[i - |pre|];
      BlankAfter(pre, r, post, i + 1);
    } else if post != "" {
      assert s[i] == post[0];
    }
  }

  lemma {:induction false} RemoveFrom(kept: seq<string>, rest: seq<string>, name: string)
    requires AllRuleText(kept) && AllRuleText(rest) && rest != []
    ensures RemoveText(Lead(kept) + Join(rest), |Lead(kept)|, name) == Join(kept + DropRules(rest, name))
    decreases |rest|
  {
    hide Overrides, RemoveText;
    var lead, r := Lead(kept), rest[0];
    var pos := |lead|;
    if |rest| == 1 {
      assert rest == [r] && DropRules(rest[1..], name) == [];
      RemoveLast(kept, r, name);
      if Overrides(name, r) {
        assert DropRules(rest, name) == [];
        assert kept + [] == kept;
      } else {
        assert DropRules(rest, name) == [r];
      }
    } else {
      var post := " " + Join(rest[1..]);
      assert lead + Join(rest) == lead + r + post;
      RemoveMiddle(lead, r, Join(rest[1..]), name);
      if Overrides(name, r) {
        RemoveFrom(kept, rest[1..], name);
        assert DropRules(rest, name) == DropRules(rest[1..], name);
      } else {
        JoinSnoc(kept, r);
        RemoveFrom(kept + [r], rest[1..], name);
        assert lead + r + " " == Lead(kept + [r]);
        assert lead + r + post == Lead(kept + [r]) + Join(rest[1..]);
        assert kept + [r] + DropRules(rest[1..], name) == kept + DropRules(rest, name);
      }
    }
  }

  /** The scan at a rule that is not the last. */
  lemma RemoveMiddle(lead: string, r: string, tail: string, name: string)
    requires RuleText(r)
    ensures RemoveText(lead + r + (" " + tail), |lead|, name)
         == if Overrides(name, r) then RemoveText(lead + tail, |lead|, name)
            else RemoveText(lead + r + (" " + tail), |lead| + |r| + 1, name)
  {
    hide Overrides, BlankFrom, RemoveStep;
    StepMiddle(lead, r, tail, name);
  }

  lemma StepMiddle(lead: string, r: string, tail: string, name: string)
    requires RuleText(r)
    ensures RemoveStep(lead + r + (" " + tail), |lead|, name)
         == if Overrides(name, r) then (lead + tail, |lead|) else (lead + r + (" " + tail), |lead| + |r| + 1)
  {
    hide Overrides, BlankFrom;
    var post := " " + tail;
    var buf, pos := lead + r + post, |lead|;
    BlankAfter(lead, r, post, pos + 1);
    var end := pos + |r|;
    assert buf[pos..end] == r;
    assert buf[..pos] + buf[end + 1..] == lead + tail;
  }

  /** The scan at the last rule: removing it also removes the blank before it. */
  lemma RemoveLast(kept: seq<string>, r: string, name: string)
    requires AllRuleText(kept) && RuleText(r)
    ensures RemoveText(Lead(kept) + Join([r]), |Lead(kept)|, name)
         == if Overrides(name, r) then Join(kept) else Join(kept + [r])
  {
    hide Overrides;
    var lead := Lead(kept);
    var buf, pos := lead + r, |lead|;
    assert buf == lead + r + "";
    BlankAfter(lead, r, "", pos + 1);
    assert buf[pos..|buf|] == r;
    JoinSnoc(kept, r);
    if kept != [] {
      JoinNonEmpty(kept);
      assert buf[..pos - 1] + buf[|buf|..] == Join(kept);
    } else {
      assert buf[..0] + buf[|buf|..] == "";
    }
  }

  /** Removing on the text is removing on the list. */
  lemma RemoveJoin(rules: seq<string>, name: string)
    requires AllRuleText(rules)
    ensures RemoveText(Join(rules), 0, name) == Join(DropRules(rules, name))
  {
    if rules != [] {
      assert Lead([]) + Join(rules) == Join(rules);
      RemoveFrom([], rules, name);
      assert [] + DropRules(rules, name) == DropRules(rules, name);
    }
  }

  function SignedRule(name: string, allow: bool): string {
    [if allow then '+' else '-'] + name
  }

  lemma {:induction false} DropKeepsText(rules: seq<string>, name: string)
    requires AllRuleText(rules)
    ensures AllRuleText(DropRules(rules, name))
    decreases |rules|
  {
    hide Overrides, RuleText;
    if rules != [] {
      DropKeepsText(rules[1..], name);
    }
  }

  /** Filing a rule on the text is filing it on the list. */
  lemma UpdateJoin(rules: seq<string>, rule: string, allow: bool)
    requires AllRuleText(rules)
    ensures UpdateText(Join(rules), rule, allow)
         == Join(DropRules(rules, ToLower(rule)) + [SignedRule(ToLower(rule), allow)])
  {
    hide RemoveText, RuleText;
    var name := ToLower(rule);
    var kept := DropRules(rules, name);
    RemoveJoin(rules, name);
    DropKeepsText(rules, name);
    JoinSnoc(kept, SignedRule(name, allow));
    if kept != [] {
      JoinNonEmpty(kept);
    }
  }
}
