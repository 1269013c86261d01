/** String operations of Rust's standard library that the core relies on: the ordering of
    `String`, `sort_unstable` followed by `dedup`, `str::trim` and `to_lowercase`. */
module Text {

  /** `String`'s `<`: lexicographic on characters. Rust compares the UTF-8 bytes, which
      orders valid strings exactly as their code points. */
  predicate Less(a: string, b: string) {
    if |a| == 0 then |b| > 0
    else if |b| == 0 then false
    else a[0] < b[0] || (a[0] == b[0] && Less(a[1..], b[1..]))
  }

  lemma {:induction false} LessIrreflexive(a: string)
    ensures !Less(a, a)
    decreases |a|
  {
    if |a| > 0 {
      LessIrreflexive(a[1..]);
    }
  }

  lemma {:induction false} LessTransitive(a: string, b: string, c: string)
    requires Less(a, b) && Less(b, c)
    ensures Less(a, c)
    decreases |a|
  {
    if |a| > 0 && a[0] == b[0] && b[0] == c[0] {
      LessTransitive(a[1..], b[1..], c[1..]);
    }
  }

  lemma {:induction false} LessTotal(a: string, b: string)
    ensures a == b || Less(a, b) || Less(b, a)
    decreases |a|
  {
    if |a| > 0 && |b| > 0 && a[0] == b[0] {
      LessTotal(a[1..], b[1..]);
      if a[1..] == b[1..] {
        assert a == [a[0]] + a[1..] && b == [b[0]] + b[1..];
      }
    }
  }

  /** Strictly increasing: sorted and free of duplicates. */
  predicate StrictlySorted(s: seq<string>) {
    forall i, j :: 0 <= i < j < |s| ==> Less(s[i], s[j])
  }

  /** Adds `x` to a strictly sorted list unless it is already there. */
  function Insert(x: string, s: seq<string>): (r: seq<string>)
    requires StrictlySorted(s)
    ensures StrictlySorted(r)
    ensures forall y :: y in r <==> y == x || y in s
    decreases |s|
  {
    if |s| == 0 then [x]
    else if x == s[0] then s
    else if Less(x, s[0]) then
      InsertFront(x, s)
    else
      var t := Insert(x, s[1..]);
      LessTotal(x, s[0]);
      InsertBelow(s[0], s, t);
      [s[0]] + t
  }

  function InsertFront(x: string, s: seq<string>): (r: seq<string>)
    requires StrictlySorted(s) && |s| > 0 && Less(x, s[0])
    ensures r == [x] + s && StrictlySorted(r)
  {
    forall j | 0 <= j < |s| ensures Less(x, s[j]) {
      if j > 0 {
        LessTransitive(x, s[0], s[j]);
      }
    }
    [x] + s
  }

  lemma InsertBelow(h: string, s: seq<string>, t: seq<string>)
    requires StrictlySorted(t) && |s| > 0 && h == s[0] && StrictlySorted(s)
    requires forall y :: y in t ==> y in s[1..] || Less(h, y)
    ensures StrictlySorted([h] + t)
  {
    forall j | 0 <= j < |t| ensures Less(h, t[j]) {
      if t[j] in s[1..] {
        var k :| 0 <= k < |s[1..]| && s[1..][k] == t[j];
        assert s[k + 1] == t[j];
      }
    }
  }

  /** `sort_unstable` then `dedup`: the distinct elements of `xs` in increasing order. */
  function SortDedup(xs: seq<string>): (r: seq<string>)
    ensures StrictlySorted(r)
    ensures forall y :: y in r <==> y in xs
  {
    if |xs| == 0 then []
    else
      var r := Insert(xs[|xs| - 1], SortDedup(xs[..|xs| - 1]));
      assert xs == xs[..|xs| - 1] + [xs[|xs| - 1]];
      r
  }

  /** A strictly sorted list is determined by its elements, so any sort followed by a
      dedup yields the same list as `SortDedup`. */
  lemma {:induction false} StrictlySortedUnique(a: seq<string>, b: seq<string>)
    requires StrictlySorted(a) && StrictlySorted(b)
    requires forall y :: y in a <==> y in b
    ensures a == b
    decreases |a|
  {
    if |a| == 0 {
      if |b| > 0 {
        HeadIsMember(b);
        assert false;
      }
    } else {
      assert a[0] in b;
      if a[0] != b[0] {
        assert b[0] in a;
        var k :| 0 <= k < |b| && b[k] == a[0];
        var m :| 0 <= m < |a| && a[m] == b[0];
        assert Less(b[0], a[0]) && Less(a[0], b[0]);
        LessTransitive(a[0], b[0], a[0]);
        LessIrreflexive(a[0]);
        assert false;
      }
      forall y ensures y in a[1..] <==> y in b[1..] {
        TailMembers(a, y);
        TailMembers(b, y);
      }
      StrictlySortedUnique(a[1..], b[1..]);
      assert a == [a[0]] + a[1..] && b == [b[0]] + b[1..];
    }
  }

  /** The first element of a non-empty list is one of its elements. */
  lemma HeadIsMember(s: seq<string>)
    ensures |s| > 0 ==> s[0] in s
  {
  }

  lemma TailMembers(s: seq<string>, y: string)
    requires StrictlySorted(s) && |s| > 0
    ensures y in s[1..] <==> y in s && y != s[0]
  {
    if y in s[1..] {
      var k :| 0 <= k < |s[1..]| && s[1..][k] == y;
      assert s[k + 1] == y;
      if y == s[0] {
        LessIrreflexive(y);
      }
    }
    if y in s && y != s[0] {
      var k :| 0 <= k < |s| && s[k] == y;
      assert s[1..][k - 1] == y;
    }
  }

  /** `char::is_whitespace`: the Unicode White_Space property. */
  predicate IsWhitespace(c: char) {
    || ('\t' <= c <= '\r')
    || c == ' '
    || c == '\U{0085}'
    || c == '\U{00A0}'
    || c == '\U{1680}'
    || ('\U{2000}' <= c <= '\U{200A}')
    || c == '\U{2028}'
    || c == '\U{2029}'
    || c == '\U{202F}'
    || c == '\U{205F}'
    || c == '\U{3000}'
  }

  predicate AllWhitespace(s: string) {
    forall k :: 0 <= k < |s| ==> IsWhitespace(s[k])
  }

  /** `str::trim_start`. */
  function TrimStart(s: string): (r: string)
    ensures |r| <= |s| && r == s[|s| - |r|..]
    ensures AllWhitespace(s[..|s| - |r|])
    ensures |r| > 0 ==> !IsWhitespace(r[0])
  {
    if |s| > 0 && IsWhitespace(s[0]) then TrimStart(s[1..]) else s
  }

  /** `str::trim_end`. */
  function TrimEnd(s: string): (r: string)
    ensures |r| <= |s| && r == s[..|r|]
    ensures AllWhitespace(s[|r|..])
    ensures |r| > 0 ==> !IsWhitespace(r[|r| - 1])
  {
    if |s| > 0 && IsWhitespace(s[|s| - 1]) then TrimEnd(s[..|s| - 1]) else s
  }

  /** `str::trim`: no whitespace is left at either end. */
  function Trim(s: string): (r: string)
    ensures |r| <= |s|
    ensures |r| > 0 ==> !IsWhitespace(r[0]) && !IsWhitespace(r[|r| - 1])
  {
    TrimEnd(TrimStart(s))
  }

  /** Text with no whitespace at either end is its own trim. */
  lemma TrimUnpadded(s: string)
    requires |s| > 0 ==> !IsWhitespace(s[0]) && !IsWhitespace(s[|s| - 1])
    ensures Trim(s) == s
  {
    TrimRemovesPadding("", s, "");
    assert "" + s + "" == s;
  }

  /** Trimming removes exactly the surrounding whitespace: a core with no whitespace at
      its ends comes back unchanged from any whitespace padding. */
  lemma {:induction false} TrimRemovesPadding(front: string, core: string, back: string)
    requires AllWhitespace(front) && AllWhitespace(back)
    requires |core| > 0 ==> !IsWhitespace(core[0]) && !IsWhitespace(core[|core| - 1])
    ensures Trim(front + core + back) == core
  {
    var s := front + core + back;
    if |core| == 0 {
      assert s == (front + back) + "";
      AllWhitespaceAppend(front, back);
      TrimStartPadding(front + back, "");
    } else {
      TrimStartPadding(front, core + back);
      assert s == front + (core + back);
      TrimEndPadding(core, back);
    }
  }

  /** Whitespace followed by whitespace is whitespace. */
  lemma AllWhitespaceAppend(front: string, back: string)
    requires AllWhitespace(front) && AllWhitespace(back)
    ensures AllWhitespace(front + back)
  {
    forall k | 0 <= k < |front + back| ensures IsWhitespace((front + back)[k]) {
      if k >= |front| {
        assert (front + back)[k] == back[k - |front|];
      }
    }
  }

  lemma {:induction false} TrimStartPadding(front: string, rest: string)
    requires AllWhitespace(front)
    requires |rest| > 0 ==> !IsWhitespace(rest[0])
    ensures TrimStart(front + rest) == rest
    decreases |front|
  {
    if |front| > 0 {
      assert (front + rest)[1..] == front[1..] + rest;
      TrimStartPadding(front[1..], rest);
    } else {
      assert front + rest == rest;
    }
  }

  lemma {:induction false} TrimEndPadding(rest: string, back: string)
    requires AllWhitespace(back)
    requires |rest| > 0 ==> !IsWhitespace(rest[|rest| - 1])
    ensures TrimEnd(rest + back) == rest
    decreases |back|
  {
    if |back| > 0 {
      assert (rest + back)[..|rest + back| - 1] == rest + back[..|back| - 1];
      TrimEndPadding(rest, back[..|back| - 1]);
    } else {
      assert rest + back == rest;
    }
  }

  function LowerChar(c: char): char {
    if 'A' <= c <= 'Z' then (c as int + 32) as char else c
  }

  /** `str::to_lowercase` on ASCII letters. */
  function ToLower(s: string): (r: string)
    ensures |r| == |s|
    ensures forall k :: 0 <= k < |s| ==> r[k] == LowerChar(s[k])
  {
    if |s| == 0 then [] else [LowerChar(s[0])] + ToLower(s[1..])
  }

  predicate NoCapitals(s: string) {
    forall k :: 0 <= k < |s| ==> !('A' <= s[k] <= 'Z')
  }

  /** Lower-casing leaves no ASCII capital behind. */
  lemma LowerHasNoCapitals(s: string)
    ensures NoCapitals(ToLower(s))
  {
    var r := ToLower(s);
    forall k | 0 <= k < |r| ensures !('A' <= r[k] <= 'Z') {
      assert r[k] == LowerChar(s[k]);
    }
  }

  /** Text without capitals is its own lower-case form. */
  lemma LowerIdentity(s: string)
    requires NoCapitals(s)
    ensures ToLower(s) == s
  {
    var r := ToLower(s);
    forall k | 0 <= k < |s| ensures r[k] == s[k] {
      assert r[k] == LowerChar(s[k]);
    }
  }
}
