/**
 Hash slots (cluster.h, cluster.c): the slot of a key, by its tag if it has
 one, and the slot a glob pattern confines its keys to. `crc` is crc16.
 */
module ClusterSlot {
  import opened Sds
  import opened Glob

  type Hash = string -> nat

  const SLOTS := 0x4000

  /** The position of the first `c` at or after `i`, or the length. */
  function FindFrom(s: string, c: char, i: nat): (r: nat)
    requires i <= |s|
    ensures i <= r <= |s| && (r < |s| ==> s[r] == c) && forall j :: i <= j < r ==> s[j] != c
    decreases |s| - i
  {
    if i == |s| || s[i] == c then i else FindFrom(s, c, i + 1)
  }

  /** The part of a key that is hashed. */
  function Tag(key: string): string {
    var s := FindFrom(key, '{', 0);
    if s == |key| then key
    else
      var e := FindFrom(key, '}', s + 1);
      if e == |key| || e == s + 1 then key else key[s + 1..e]
  }

  function KeySlot(crc: Hash, key: string): nat {
    crc(Tag(key)) % SLOTS
  }

  /** keyHashSlot */
  method KeyHashSlot(crc: Hash, key: string) returns (slot: nat)
    ensures slot == KeySlot(crc, key) && slot < SLOTS
  {
    var s := 0;
    while s < |key| && key[s] != '{'
      invariant s <= |key| && FindFrom(key, '{', s) == FindFrom(key, '{', 0)
    {
      s := s + 1;
    }
    if s == |key| {
      return crc(key) % SLOTS;
    }
    var e := s + 1;
    while e < |key| && key[e] != '}'
      invariant s + 1 <= e <= |key| && FindFrom(key, '}', e) == FindFrom(key, '}', s + 1)
    {
      e := e + 1;
    }
    if e == |key| || e == s + 1 {
      return crc(key) % SLOTS;
    }
    return crc(key[s + 1..e]) % SLOTS;
  }

  predicate Plain(c: char) {
    c != '*' && c != '?' && c != '[' && c != '\\'
  }

  predicate PlainUpTo(p: string, n: int) {
    n <= |p| && forall i :: 0 <= i < n ==> Plain(p[i])
  }

  /** A complete, non-empty tag from `s` to `e`. */
  ghost predicate IsTag(q: string, s: int, e: int) {
    && 0 <= s && s + 1 < e < |q|
    && q[s] == '{' && q[e] == '}'
    && (forall j :: 0 <= j < s ==> q[j] != '{')
    && (forall j :: s < j < e ==> q[j] != '}')
  }

  /** The string ends with such a tag. */
  ghost predicate Closed(q: string) {
    exists s :: EndsTag(q, s)
  }

  ghost predicate EndsTag(q: string, s: int) {
    IsTag(q, s, |q| - 1)
  }

  /** Where the scan for a tag stands: no brace yet, after a brace, or past an empty tag. */
  datatype Brace = NoBrace | Open(at: nat) | EmptyTag(at: nat)

  /** What the first `i` bytes say about the braces. */
  ghost predicate Scanned(p: string, i: nat, b: Brace)
    requires i <= |p|
  {
    match b
    case NoBrace => forall j :: 0 <= j < i ==> p[j] != '{'
    case Open(s) =>
      && s < i && p[s] == '{' && (forall j :: 0 <= j < s ==> p[j] != '{')
      && forall j :: s < j < i ==> p[j] != '}'
    case EmptyTag(s) =>
      s + 1 < i && p[s] == '{' && p[s + 1] == '}' && forall j :: 0 <= j < s ==> p[j] != '{'
  }

  /** Nothing before position `i` closes a tag. */
  lemma StillOpen(p: string, i: nat, b: Brace)
    requires i <= |p| && Scanned(p, i, b)
    ensures forall m :: 0 <= m <= i ==> !Closed(p[..m])
  {
    forall m | 0 <= m <= i ensures !Closed(p[..m]) {
      forall s ensures !EndsTag(p[..m], s) {
      }
    }
  }

  /**
   patternHashSlot. A slot holds for every key the pattern accepts; none is
   returned exactly when a special character comes before the first tag ends.
   */
  method PatternHashSlot(crc: Hash, p: string) returns (slot: Option<nat>)
    ensures slot.Some? ==> forall key :: StringMatch(p, key, false) ==> KeySlot(crc, key) == slot.value
    ensures slot.None? <==> exists i :: OpenAt(p, i)
  {
    hide Matches, Search, Tag, Closed;
    var b := NoBrace;
    for i := 0 to |p|
      invariant PlainUpTo(p, i)
      invariant Scanned(p, i, b)
    {
      if p[i] == '*' || p[i] == '?' || p[i] == '[' {
        StillOpen(p, i, b);
        assert OpenAt(p, i);
        return None;
      } else if p[i] == '\\' {
        StillOpen(p, i, b);
        assert OpenAt(p, i);
        return None;
      } else if b.NoBrace? && p[i] == '{' {
        b := Open(i);
      } else if b.Open? && p[i] == '}' && i == b.at + 1 {
        b := EmptyTag(b.at);
      } else if b.Open? && p[i] == '}' {
        ClosedTag(p, b.at, i);
        Confined(crc, p, i + 1, true);
        NotOpen(p, i + 1, true);
        return Some(crc(p[b.at + 1..i]) % SLOTS);
      }
    }
    WholeTag(p, b);
    assert p[..|p|] == p;
    Confined(crc, p, |p|, false);
    NotOpen(p, |p|, false);
    return Some(crc(p) % SLOTS);
  }

  /** A special character with no complete tag before it. */
  ghost predicate OpenAt(p: string, i: int) {
    0 <= i < |p| && !Plain(p[i]) && forall m :: 0 <= m <= i ==> !Closed(p[..m])
  }

  lemma NotOpen(p: string, n: nat, tagged: bool)
    requires PlainUpTo(p, n) && (if tagged then Closed(p[..n]) else n == |p|)
    ensures !exists i :: OpenAt(p, i)
  {
    hide Closed;
    forall i ensures !OpenAt(p, i) {
      if 0 <= i < n {
        assert Plain(p[i]);
      }
    }
  }

  lemma Confined(crc: Hash, p: string, n: nat, tagged: bool)
    requires PlainUpTo(p, n) && (if tagged then Closed(p[..n]) else n == |p|)
    ensures forall key :: StringMatch(p, key, false) ==> KeySlot(crc, key) == KeySlot(crc, p[..n])
  {
    hide Matches, Tag, Closed, Search;
    forall key | StringMatch(p, key, false) ensures KeySlot(crc, key) == KeySlot(crc, p[..n]) {
      SearchSound(p, key, false, 0, false);
      SlotOfMatching(crc, p, n, tagged, key);
    }
  }

  lemma TagIs(q: string, s: int, e: int)
    requires IsTag(q, s, e)
    ensures Tag(q) == q[s + 1..e]
  {
    var f := FindFrom(q, '{', 0);
    assert f == s;
    assert FindFrom(q, '}', s + 1) == e;
  }

  lemma ClosedTag(p: string, s: nat, i: nat)
    requires i < |p| && Scanned(p, i, Open(s)) && p[i] == '}' && i != s + 1
    ensures Closed(p[..i + 1]) && Tag(p[..i + 1]) == p[s + 1..i]
  {
    var q := p[..i + 1];
    assert EndsTag(q, s);
    TagIs(q, s, i);
    assert q[s + 1..i] == p[s + 1..i];
  }

  lemma WholeTag(p: string, b: Brace)
    requires Scanned(p, |p|, b)
    ensures Tag(p) == p
  {
    if b.EmptyTag? {
      assert FindFrom(p, '{', 0) == b.at;
    }
  }

  /** The tag of a key is settled as soon as it is closed. */
  lemma TagOfPrefix(q: string, key: string)
    requires Closed(q) && |q| <= |key| && key[..|q|] == q
    ensures Tag(key) == Tag(q)
  {
    var s :| EndsTag(q, s);
    TagIs(q, s, |q| - 1);
    assert forall j :: 0 <= j < |q| ==> key[j] == q[j];
    assert IsTag(key, s, |q| - 1);
    TagIs(key, s, |q| - 1);
    assert key[s + 1..|q| - 1] == q[s + 1..|q| - 1];
  }

  /** Plain bytes match only themselves. */
  lemma {:induction false} PlainPrefix(p: string, key: string, n: nat)
    requires PlainUpTo(p, n) && Matches(p, key, false)
    ensures n <= |key| && key[..n] == p[..n] && Matches(p[n..], key[n..], false)
    decreases n
  {
    if n == 0 {
      assert p[0..] == p && key[0..] == key;
    } else {
      assert Plain(p[0]);
      assert Rest(p) == p[1..];
      assert PlainUpTo(p[1..], n - 1) by {
        assert forall i :: 0 <= i < n - 1 ==> p[1..][i] == p[i + 1];
      }
      PlainPrefix(p[1..], key[1..], n - 1);
      assert p[1..][n - 1..] == p[n..] && key[1..][n - 1..] == key[n..];
      assert key[..n] == [key[0]] + key[1..][..n - 1];
      assert p[..n] == [p[0]] + p[1..][..n - 1];
    }
  }

  /** Every key the pattern means has the slot patternHashSlot returns. */
  lemma SlotOfMatching(crc: Hash, p: string, n: nat, tagged: bool, key: string)
    requires PlainUpTo(p, n) && (if tagged then Closed(p[..n]) else n == |p|)
    requires Matches(p, key, false)
    ensures KeySlot(crc, key) == KeySlot(crc, p[..n])
  {
    hide Matches, Tag, Closed;
    PlainPrefix(p, key, n);
    if tagged {
      TagOfPrefix(p[..n], key);
    } else {
      assert p[n..] == "";
      NothingLeft(key[n..]);
      assert key == key[..n] + key[n..];
      assert key == key[..n];
    }
  }

  lemma NothingLeft(s: string)
    requires Matches("", s, false)
    ensures s == ""
  {
  }
}
