/**
 Glob-style matching (stringmatchlen in util.c), with its early end of hopeless
 searches, against the plain meaning of a pattern. Strings are bytes; what is
 read past the end of a pattern is its terminating zero byte.
 */
module Glob {
  import opened Sds

  const MAX_NESTING := 1000

  /** A byte as the (signed) char the ranges are compared with. */
  function Signed(c: char): int {
    if c as int >= 128 then c as int - 256 else c as int
  }

  function Fold(c: char, nocase: bool): char {
    if nocase then Lower(c) else c
  }

  predicate Same(a: char, b: char, nocase: bool) {
    Fold(a, nocase) == Fold(b, nocase)
  }

  predicate InRange(lo: char, hi: char, c: char, nocase: bool) {
    var a, b := if Signed(lo) > Signed(hi) then hi else lo, if Signed(lo) > Signed(hi) then lo else hi;
    Signed(Fold(a, nocase)) <= Signed(Fold(c, nocase)) <= Signed(Fold(b, nocase))
  }

  /** The members of a class: what stands after "[" or "[^". */
  predicate InClass(p: string, c: char, nocase: bool)
    decreases |p|
  {
    if p == "" || p[0] == ']' then false
    else if p[0] == '\\' && |p| >= 2 then p[1] == c || InClass(p[2..], c, nocase)
    else if |p| >= 3 && p[1] == '-' then InRange(p[0], p[2], c, nocase) || InClass(p[3..], c, nocase)
    else Same(p[0], c, nocase) || InClass(p[1..], c, nocase)
  }

  /** What follows the class; an unfinished class ends with the pattern. */
  function AfterClass(p: string): (r: string)
    ensures |r| <= |p|
    decreases |p|
  {
    if p == "" then ""
    else if p[0] == '\\' && |p| >= 2 then AfterClass(p[2..])
    else if p[0] == ']' then p[1..]
    else if |p| >= 3 && p[1] == '-' then AfterClass(p[3..])
    else AfterClass(p[1..])
  }

  predicate Negated(p: string) {
    |p| >= 2 && p[1] == '^'
  }

  function ClassBody(p: string): string
    requires p != ""
  {
    if Negated(p) then p[2..] else p[1..]
  }

  /** Does the first element of the pattern, not a star, accept this byte? */
  predicate Accepts(p: string, c: char, nocase: bool)
    requires p != "" && p[0] != '*'
  {
    if p[0] == '?' then true
    else if p[0] == '[' then InClass(ClassBody(p), c, nocase) != Negated(p)
    else if p[0] == '\\' && |p| >= 2 then Same(p[1], c, nocase)
    else Same(p[0], c, nocase)
  }

  /** The pattern after its first element. */
  function Rest(p: string): (r: string)
    requires p != "" && p[0] != '*'
    ensures |r| < |p|
  {
    if p[0] == '[' then AfterClass(ClassBody(p))
    else if p[0] == '\\' && |p| >= 2 then p[2..]
    else p[1..]
  }

  function DropStars(p: string): (r: string)
    ensures |r| <= |p| && (r == "" || r[0] != '*')
    ensures p != "" && p[0] == '*' ==> |r| < |p|
    decreases |p|
  {
    if p != "" && p[0] == '*' then DropStars(p[1..]) else p
  }

  // ----- the meaning of a pattern -----

  ghost predicate Matches(p: string, s: string, nocase: bool)
    decreases |p|
  {
    if p == "" then s == ""
    else if p[0] == '*' then exists k :: 0 <= k <= |s| && Matches(p[1..], s[k..], nocase)
    else s != "" && Accepts(p, s[0], nocase) && Matches(Rest(p), s[1..], nocase)
  }

  // ----- the search -----

  datatype Result = Result(matched: bool, skip: bool)

  /** stringmatchlen_impl; `skip` is the flag shared by all nested calls. */
  function Search(p: string, s: string, nocase: bool, nesting: nat, skip: bool): Result
    decreases |p|, |s| + 1
  {
    if nesting > MAX_NESTING then Result(false, skip)
    else if p == "" || s == "" then Result(p == "" && s == "", skip)
    else if p[0] == '*' then
      var rest := DropStars(p);
      if rest == "" then Result(true, skip) else SearchFrom(rest, s, nocase, nesting + 1, skip)
    else if !Accepts(p, s[0], nocase) then Result(false, skip)
    else if |s| == 1 then Result(DropStars(Rest(p)) == "", skip)
    else Search(Rest(p), s[1..], nocase, nesting, skip)
  }

  /** The rest of the pattern after a star, tried at every later position. */
  function SearchFrom(rest: string, s: string, nocase: bool, nesting: nat, skip: bool): Result
    decreases |rest|, |s| + 2
  {
    if s == "" then Result(false, true)
    else
      var r := Search(rest, s, nocase, nesting, skip);
      if r.matched then r
      else if r.skip then Result(false, true)
      else SearchFrom(rest, s[1..], nocase, nesting, r.skip)
  }

  // ----- stars -----

  ghost predicate MatchesFrom(p: string, s: string, nocase: bool, k: int) {
    0 <= k <= |s| && Matches(p, s[k..], nocase)
  }

  lemma AtStart(p: string, s: string, nocase: bool)
    requires Matches(p, s, nocase)
    ensures MatchesFrom(p, s, nocase, 0)
  {
    hide Matches;
    assert s[0..] == s;
  }

  lemma StarMeans(p: string, s: string, nocase: bool)
    requires p != "" && p[0] == '*'
    ensures Matches(p, s, nocase) <==> exists k :: MatchesFrom(p[1..], s, nocase, k)
  {
    hide Accepts, Rest;
    if Matches(p, s, nocase) {
      var k :| 0 <= k <= |s| && Matches(p[1..], s[k..], nocase);
      assert MatchesFrom(p[1..], s, nocase, k);
    }
    if k :| MatchesFrom(p[1..], s, nocase, k) {
      assert Matches(p[1..], s[k..], nocase);
    }
  }

  /** A run of stars stands for any run of bytes. */
  lemma {:induction false} StarsMean(p: string, s: string, nocase: bool)
    requires p != "" && p[0] == '*'
    ensures Matches(p, s, nocase) <==> exists k :: MatchesFrom(DropStars(p), s, nocase, k)
    decreases |p|
  {
    hide Matches;
    StarMeans(p, s, nocase);
    var q := p[1..];
    if q != "" && q[0] == '*' {
      assert DropStars(p) == DropStars(q);
      if j :| MatchesFrom(q, s, nocase, j) {
        StarsMean(q, s[j..], nocase);
        var k :| MatchesFrom(DropStars(q), s[j..], nocase, k);
        assert s[j..][k..] == s[j + k..];
        assert MatchesFrom(DropStars(p), s, nocase, j + k);
      }
      if k :| MatchesFrom(DropStars(p), s, nocase, k) {
        assert MatchesFrom(DropStars(q), s, nocase, k);
        StarsMean(q, s, nocase);
        AtStart(q, s, nocase);
      }
    } else {
      assert DropStars(p) == q;
      if k :| MatchesFrom(q, s, nocase, k) {
        assert MatchesFrom(DropStars(p), s, nocase, k);
      }
      if k :| MatchesFrom(DropStars(p), s, nocase, k) {
        assert MatchesFrom(q, s, nocase, k);
      }
    }
  }

  lemma StarsAt(p: string, s: string, nocase: bool, k: int)
    requires p != "" && p[0] == '*' && MatchesFrom(DropStars(p), s, nocase, k)
    ensures Matches(p, s, nocase)
  {
    hide *;
    StarsMean(p, s, nocase);
  }

  lemma StarsAlone(p: string, s: string, nocase: bool)
    requires p != "" && p[0] == '*' && DropStars(p) == ""
    ensures Matches(p, s, nocase)
  {
    hide DropStars;
    assert s[|s|..] == "";
    assert Matches("", "", nocase);
    StarsAt(p, s, nocase, |s|);
  }

  /** Only stars match the empty string. */
  lemma {:induction false} EmptyMeans(p: string, nocase: bool)
    ensures Matches(p, "", nocase) <==> DropStars(p) == ""
    decreases |p|
  {
    hide Accepts, Rest;
    if p != "" && p[0] == '*' {
      EmptyMeans(p[1..], nocase);
      assert ""[0..] == "";
      if Matches(p, "", nocase) {
        var k :| 0 <= k <= |""| && Matches(p[1..], ""[k..], nocase);
        assert ""[k..] == "";
      }
    }
  }

  /** How deep the search nests: the runs of stars outside escapes and classes, but for one at the end. */
  function Depth(p: string): nat
    decreases |p|
  {
    if p == "" then 0
    else if p[0] == '*' then
      var r := DropStars(p);
      if r == "" then 0 else 1 + Depth(r)
    else Depth(Rest(p))
  }

  // ----- the search is right -----

  /** Whatever the search accepts, the pattern means. */
  lemma {:induction false} SearchSound(p: string, s: string, nocase: bool, nesting: nat, skip: bool)
    requires Search(p, s, nocase, nesting, skip).matched
    ensures Matches(p, s, nocase)
    decreases |p|, |s| + 1
  {
    hide Accepts, Rest, DropStars;
    if p == "" || s == "" {
    } else if p[0] == '*' {
      var rest := DropStars(p);
      if rest == "" {
        StarsAlone(p, s, nocase);
      } else {
        var k := SearchFromSound(rest, s, nocase, nesting + 1, skip);
        StarsAt(p, s, nocase, k);
      }
    } else if |s| == 1 {
      EmptyMeans(Rest(p), nocase);
      assert s[1..] == "";
    } else {
      SearchSound(Rest(p), s[1..], nocase, nesting, skip);
    }
  }

  lemma {:induction false} SearchFromSound(rest: string, s: string, nocase: bool, nesting: nat, skip: bool)
    returns (k: nat)
    requires SearchFrom(rest, s, nocase, nesting, skip).matched
    ensures MatchesFrom(rest, s, nocase, k)
    decreases |rest|, |s| + 2
  {
    hide Matches;
    var r := Search(rest, s, nocase, nesting, skip);
    if r.matched {
      SearchSound(rest, s, nocase, nesting, skip);
      k := 0;
      assert s[0..] == s;
    } else {
      var j := SearchFromSound(rest, s[1..], nocase, nesting, r.skip);
      k := j + 1;
      assert s[1..][j..] == s[k..];
    }
  }

  /** No suffix of the string matches. */
  ghost predicate Hopeless(p: string, s: string, nocase: bool) {
    forall k :: !MatchesFrom(p, s, nocase, k)
  }

  lemma HopelessStep(p: string, s: string, nocase: bool)
    requires p != "" && p[0] != '*' && s != "" && Hopeless(Rest(p), s[1..], nocase)
    ensures Hopeless(p, s, nocase)
  {
    hide MatchesFrom, Accepts, Rest;
    LaterRest(p, s, nocase);
  }

  lemma LaterRest(p: string, s: string, nocase: bool)
    requires p != "" && p[0] != '*' && s != ""
    ensures forall k :: MatchesFrom(p, s, nocase, k) ==> MatchesFrom(Rest(p), s[1..], nocase, k)
  {
    hide Accepts, Rest;
    forall k | MatchesFrom(p, s, nocase, k) ensures MatchesFrom(Rest(p), s[1..], nocase, k) {
      assert s[k..][1..] == s[1..][k..];
    }
  }

  lemma HopelessStar(p: string, s: string, nocase: bool)
    requires p != "" && p[0] == '*' && Hopeless(DropStars(p), s, nocase)
    ensures Hopeless(p, s, nocase)
  {
    hide MatchesFrom, DropStars;
    LaterStar(p, s, nocase);
  }

  lemma LaterStar(p: string, s: string, nocase: bool)
    requires p != "" && p[0] == '*'
    ensures forall k :: MatchesFrom(p, s, nocase, k) ==> exists j :: MatchesFrom(DropStars(p), s, nocase, j)
  {
    hide DropStars, Matches;
    forall k | MatchesFrom(p, s, nocase, k) ensures exists j :: MatchesFrom(DropStars(p), s, nocase, j) {
      StarsMean(p, s[k..], nocase);
      var j :| MatchesFrom(DropStars(p), s[k..], nocase, j);
      assert s[k..][j..] == s[k + j..];
      assert MatchesFrom(DropStars(p), s, nocase, k + j);
    }
  }

  /** On patterns that do not nest too deep the search decides, and its flag is raised only when no later start can match. */
  lemma {:induction false} SearchExact(p: string, s: string, nocase: bool, nesting: nat)
    requires s != "" && nesting + Depth(p) <= MAX_NESTING
    ensures var r := Search(p, s, nocase, nesting, false);
            && (r.matched <==> Matches(p, s, nocase))
            && (!r.matched && r.skip ==> Hopeless(p, s, nocase))
    decreases |p|, |s| + 1
  {
    hide Accepts, Rest, Hopeless, DropStars;
    if p == "" {
    } else if p[0] == '*' {
      var rest := DropStars(p);
      if rest == "" {
        StarsAlone(p, s, nocase);
      } else {
        SearchFromExact(rest, s, nocase, nesting + 1);
        StarDecided(p, s, nocase, SearchFrom(rest, s, nocase, nesting + 1, false).matched);
      }
    } else if Accepts(p, s[0], nocase) {
      if |s| == 1 {
        EmptyMeans(Rest(p), nocase);
        assert s[1..] == "";
      } else {
        SearchExact(Rest(p), s[1..], nocase, nesting);
        if Hopeless(Rest(p), s[1..], nocase) {
          HopelessStep(p, s, nocase);
        }
      }
    }
  }

  /** What holds of the pattern after the stars decides the whole. */
  lemma StarDecided(p: string, s: string, nocase: bool, matched: bool)
    requires p != "" && p[0] == '*'
    requires matched ==> exists k :: MatchesFrom(DropStars(p), s, nocase, k)
    requires !matched ==> Hopeless(DropStars(p), s, nocase)
    ensures matched <==> Matches(p, s, nocase)
    ensures !matched ==> Hopeless(p, s, nocase)
  {
    hide *;
    StarsMean(p, s, nocase);
    if !matched {
      HopelessStar(p, s, nocase);
      NoneFrom(DropStars(p), s, nocase);
    }
  }

  lemma NoneFrom(p: string, s: string, nocase: bool)
    requires Hopeless(p, s, nocase)
    ensures !exists k :: MatchesFrom(p, s, nocase, k)
  {
  }

  lemma {:induction false} SearchFromExact(rest: string, s: string, nocase: bool, nesting: nat)
    requires rest != "" && rest[0] != '*' && nesting + Depth(rest) <= MAX_NESTING
    ensures var r := SearchFrom(rest, s, nocase, nesting, false);
            && (r.matched ==> exists k :: MatchesFrom(rest, s, nocase, k))
            && (!r.matched ==> r.skip && Hopeless(rest, s, nocase))
    decreases |rest|, |s| + 2
  {
    hide Depth;
    if s == "" {
      EmptyMeans(rest, nocase);
      NoEmptyStart(rest, nocase);
    } else {
      SearchExact(rest, s, nocase, nesting);
      var r := Search(rest, s, nocase, nesting, false);
      if r.matched {
        assert s[0..] == s;
        assert MatchesFrom(rest, s, nocase, 0);
      } else if !r.skip {
        SearchFromExact(rest, s[1..], nocase, nesting);
        OneLater(rest, s, nocase);
      }
    }
  }

  lemma NoEmptyStart(p: string, nocase: bool)
    requires p != "" && p[0] != '*'
    ensures Hopeless(p, "", nocase)
  {
  }

  lemma OneLater(p: string, s: string, nocase: bool)
    requires s != ""
    ensures (exists k :: MatchesFrom(p, s[1..], nocase, k)) ==> exists k :: MatchesFrom(p, s, nocase, k)
    ensures !Matches(p, s, nocase) && Hopeless(p, s[1..], nocase) ==> Hopeless(p, s, nocase)
  {
    hide Matches;
    if j :| MatchesFrom(p, s[1..], nocase, j) {
      assert s[1..][j..] == s[j + 1..];
      assert MatchesFrom(p, s, nocase, j + 1);
    }
    if !Matches(p, s, nocase) && Hopeless(p, s[1..], nocase) {
      forall k ensures !MatchesFrom(p, s, nocase, k) {
        if k == 0 {
          assert s[0..] == s;
        } else if 0 < k <= |s| {
          assert s[1..][k - 1..] == s[k..];
          assert !MatchesFrom(p, s[1..], nocase, k - 1);
        }
      }
    }
  }

  predicate StringMatch(p: string, s: string, nocase: bool) {
    Search(p, s, nocase, 0, false).matched
  }

  /** A pattern that nests too deep is refused, whatever the string. */
  lemma {:induction false} DeepRefused(p: string, s: string, nocase: bool, nesting: nat, skip: bool)
    requires nesting + Depth(p) > MAX_NESTING
    ensures !Search(p, s, nocase, nesting, skip).matched
    decreases |p|, |s| + 1
  {
    hide Accepts, Rest, DropStars;
    if nesting <= MAX_NESTING && p != "" && s != "" {
      if p[0] == '*' {
        DeepRefusedFrom(DropStars(p), s, nocase, nesting + 1, skip);
      } else if Accepts(p, s[0], nocase) {
        if |s| == 1 {
          OnlyStars(Rest(p));
        } else {
          DeepRefused(Rest(p), s[1..], nocase, nesting, skip);
        }
      }
    }
  }

  lemma {:induction false} DeepRefusedFrom(rest: string, s: string, nocase: bool, nesting: nat, skip: bool)
    requires nesting + Depth(rest) > MAX_NESTING
    ensures !SearchFrom(rest, s, nocase, nesting, skip).matched
    decreases |rest|, |s| + 2
  {
    hide Depth;
    if s != "" {
      DeepRefused(rest, s, nocase, nesting, skip);
      var r := Search(rest, s, nocase, nesting, skip);
      if !r.skip {
        DeepRefusedFrom(rest, s[1..], nocase, nesting, r.skip);
      }
    }
  }

  lemma OnlyStars(p: string)
    ensures DropStars(p) == "" ==> Depth(p) == 0
  {
    if p != "" && p[0] != '*' {
      assert DropStars(p) == p;
    }
  }

  /**
   What stringmatchlen accepts, for every pattern and string: what the pattern
   means, unless it nests more than a thousand deep, or is made of stars alone
   and the string is empty.
   */
  lemma StringMatchExact(p: string, s: string, nocase: bool)
    ensures StringMatch(p, s, nocase)
       <==> Matches(p, s, nocase) && Depth(p) <= MAX_NESTING && (s == "" ==> p == "")
  {
    hide DropStars, Matches, Depth;
    if s == "" {
      EmptyMeans(p, nocase);
      NoDepth();
    } else if Depth(p) <= MAX_NESTING {
      SearchExact(p, s, nocase, 0);
    } else {
      DeepRefused(p, s, nocase, 0, false);
    }
  }

  lemma NoDepth()
    ensures DropStars("") == "" && Depth("") == 0
  {
  }

  /** `n` times a star and an "a", and `n` times an "a". */
  function StarAs(n: nat): string { if n == 0 then "" else "*a" + StarAs(n - 1) }
  function As(n: nat): string { if n == 0 then "" else "a" + As(n - 1) }

  lemma {:induction false} StarAsMean(n: nat, nocase: bool)
    ensures Matches(StarAs(n), As(n), nocase) && Depth(StarAs(n)) == n
  {
    if n > 0 {
      StarAsMean(n - 1, nocase);
      var p, s := StarAs(n), As(n);
      var q := "a" + StarAs(n - 1);
      assert p[1..] == q && s[0..] == s && s[1..] == As(n - 1);
      assert q[0] == 'a' && q[1..] == StarAs(n - 1);
      assert DropStars(p) == q;
      assert Rest(q) == StarAs(n - 1);
      assert Matches(q, s, nocase);
      assert Matches(p[1..], s[0..], nocase);
    }
  }

  /** The smallest pattern past the limit is refused although it means the string. */
  lemma DeepMisses(nocase: bool)
    ensures Matches(StarAs(MAX_NESTING + 1), As(MAX_NESTING + 1), nocase)
    ensures !StringMatch(StarAs(MAX_NESTING + 1), As(MAX_NESTING + 1), nocase)
  {
    hide Matches, Depth, StarAs, As;
    StarAsMean(MAX_NESTING + 1, nocase);
    StringMatchExact(StarAs(MAX_NESTING + 1), As(MAX_NESTING + 1), nocase);
  }

  lemma StarMissesEmpty(nocase: bool)
    ensures Matches("*", "", nocase) && !StringMatch("*", "", nocase)
  {
    EmptyMeans("*", nocase);
  }

  // ----- the loops -----

  /** The loop over a class, up to its closing bracket or the end of the pattern. */
  method ScanClass(body: string, c: char, nocase: bool) returns (found: bool, rest: string)
    ensures found == InClass(body, c, nocase) && rest == AfterClass(body)
  {
    hide InRange, Same;
    var p := body;
    found := false;
    while true
      invariant (found || InClass(p, c, nocase)) == InClass(body, c, nocase)
      invariant AfterClass(p) == AfterClass(body)
      decreases |p|
    {
      if |p| >= 2 && p[0] == '\\' {
        if p[1] == c { found := true; }
        p := p[2..];
      } else if p != "" && p[0] == ']' {
        return found, p[1..];
      } else if p == "" {
        return found, "";
      } else if |p| >= 3 && p[1] == '-' {
        if InRange(p[0], p[2], c, nocase) { found := true; }
        p := p[3..];
      } else {
        if Same(p[0], c, nocase) { found := true; }
        p := p[1..];
      }
    }
  }

  /** stringmatchlen_impl */
  method MatchImpl(pattern: string, text: string, nocase: bool, nesting: nat, raised: bool)
    returns (matched: bool, skip: bool)
    ensures Result(matched, skip) == Search(pattern, text, nocase, nesting, raised)
    decreases |pattern|
  {
    hide InClass, AfterClass, InRange, Same;
    skip := raised;
    if nesting > MAX_NESTING {
      return false, skip;
    }
    var p, s := pattern, text;
    while p != "" && s != ""
      invariant |p| <= |pattern|
      invariant Search(p, s, nocase, nesting, raised) == Search(pattern, text, nocase, nesting, raised)
      decreases |p|
    {
      if p[0] == '*' {
        matched, skip := AfterStar(p, s, nocase, nesting, raised);
        return;
      }
      var ok, rest := true, p[1..];
      if p[0] == '[' {
        var found;
        found, rest := ScanClass(ClassBody(p), s[0], nocase);
        ok := found != Negated(p);
      } else if p[0] != '?' {
        var q := if p[0] == '\\' && |p| >= 2 then p[1..] else p;
        ok := Same(q[0], s[0], nocase);
        rest := q[1..];
      }
      assert ok == Accepts(p, s[0], nocase) && rest == Rest(p);
      if !ok {
        return false, skip;
      }
      if |s| == 1 {
        rest := SkipStars(rest);
        return rest == "", skip;
      }
      p, s := rest, s[1..];
    }
    matched := p == "" && s == "";
  }

  method SkipStars(pattern: string) returns (p: string)
    ensures p == DropStars(pattern)
  {
    p := pattern;
    while p != "" && p[0] == '*'
      invariant DropStars(p) == DropStars(pattern)
      decreases |p|
    {
      p := p[1..];
    }
  }

  method AfterStar(pattern: string, text: string, nocase: bool, nesting: nat, raised: bool)
    returns (matched: bool, skip: bool)
    requires pattern != "" && pattern[0] == '*' && text != "" && nesting <= MAX_NESTING
    ensures Result(matched, skip) == Search(pattern, text, nocase, nesting, raised)
    decreases |pattern|, 0
  {
    hide Accepts, Rest;
    skip := raised;
    var rest := SkipStars(pattern);
    if rest == "" {
      return true, skip;
    }
    var s := text;
    while s != ""
      invariant SearchFrom(rest, s, nocase, nesting + 1, skip) == SearchFrom(rest, text, nocase, nesting + 1, raised)
      decreases |s|
    {
      matched, skip := MatchImpl(rest, s, nocase, nesting + 1, skip);
      if matched || skip {
        return;
      }
      s := s[1..];
    }
    return false, true;
  }
}
