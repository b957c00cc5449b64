/** String operations the leaderboard code borrows from JavaScript's
    `String.prototype`: prefix and suffix tests, substring search, ASCII
    lower-casing, `split`, and decimal formatting. */
module Text {

  predicate StartsWith(s: string, p: string) {
    |p| <= |s| && s[..|p|] == p
  }

  predicate EndsWith(s: string, p: string) {
    |p| <= |s| && s[|s| - |p|..] == p
  }

  /** `s.includes(p)`. */
  predicate Contains(s: string, p: string) {
    exists i | 0 <= i <= |s| - |p| :: OccursAt(s, p, i)
  }

  predicate OccursAt(s: string, p: string, i: int)
    requires 0 <= i <= |s| - |p|
  {
    s[i..i + |p|] == p
  }

  function LowerChar(c: char): char {
    if 'A' <= c <= 'Z' then (c as int + 32) as char else c
  }

  /** `s.toLowerCase()` restricted to ASCII letters. */
  function Lower(s: string): (r: string)
    ensures |r| == |s|
    ensures forall i :: 0 <= i < |s| ==> r[i] == LowerChar(s[i])
  {
    seq(|s|, i requires 0 <= i < |s| => LowerChar(s[i]))
  }

  predicate IsDigit(c: char) { '0' <= c <= '9' }

  /** A non-empty run of decimal digits: the strings for which the model
      takes `isNaN(Number(s))` to be false. */
  predicate IsDigits(s: string) {
    |s| > 0 && forall i :: 0 <= i < |s| ==> IsDigit(s[i])
  }

  /** `s.split("T")[0]`: the text before the first `T`, or all of `s`. */
  function BeforeT(s: string): (r: string)
    ensures StartsWith(s, r)
    ensures forall i :: 0 <= i < |r| ==> r[i] != 'T'
    ensures |r| < |s| ==> s[|r|] == 'T'
  {
    if s == [] then []
    else if s[0] == 'T' then []
    else [s[0]] + BeforeT(s[1..])
  }

  /** `s.split('/').filter(Boolean)`: the non-empty pieces between slashes. */
  function Segments(s: string): (r: seq<string>)
    ensures forall k :: 0 <= k < |r| ==> r[k] != [] && '/' !in r[k]
    ensures Join(r) == WithoutSlashes(s)
  {
    SegmentsFrom(s, [])
  }

  /** The segments of `cur + s` when `cur` is the unfinished segment already
      read. */
  function {:induction false} SegmentsFrom(s: string, cur: string): (r: seq<string>)
    requires '/' !in cur
    ensures forall k :: 0 <= k < |r| ==> r[k] != [] && '/' !in r[k]
    ensures Join(r) == cur + WithoutSlashes(s)
    decreases |s|
  {
    var head := if cur == [] then [] else [cur];
    assert Join(head) == cur by {
      if cur != [] { assert Join(head) == cur + Join([]); }
    }
    if s == [] then
      head
    else if s[0] == '/' then
      var rest := SegmentsFrom(s[1..], []);
      JoinAppend(head, rest);
      assert WithoutSlashes(s) == WithoutSlashes(s[1..]);
      head + rest
    else
      var r := SegmentsFrom(s[1..], cur + [s[0]]);
      assert WithoutSlashes(s) == [s[0]] + WithoutSlashes(s[1..]);
      assert cur + [s[0]] + WithoutSlashes(s[1..]) == cur + WithoutSlashes(s);
      r
  }

  function Join(parts: seq<string>): string {
    if parts == [] then [] else parts[0] + Join(parts[1..])
  }

  lemma {:induction false} JoinAppend(a: seq<string>, b: seq<string>)
    ensures Join(a + b) == Join(a) + Join(b)
  {
    if a == [] {
      assert a + b == b;
    } else {
      assert (a + b)[0] == a[0];
      assert (a + b)[1..] == a[1..] + b;
      JoinAppend(a[1..], b);
    }
  }

  function WithoutSlashes(s: string): string {
    if s == [] then [] else (if s[0] == '/' then [] else [s[0]]) + WithoutSlashes(s[1..])
  }

  function DigitChar(d: nat): char
    requires d < 10
  {
    ('0' as int + d) as char
  }

  /** `String(n)` for a natural number. */
  function NatToString(n: nat): (r: string)
    ensures IsDigits(r)
    ensures |r| == 1 <==> n < 10
    decreases n
  {
    if n < 10 then [DigitChar(n)] else NatToString(n / 10) + [DigitChar(n % 10)]
  }

  /** Decimal rendering is injective: distinct numbers print differently. */
  lemma {:induction false} NatToStringInjective(a: nat, b: nat)
    requires NatToString(a) == NatToString(b)
    ensures a == b
    decreases a
  {
    if a >= 10 && b >= 10 {
      var sa := NatToString(a / 10);
      var sb := NatToString(b / 10);
      assert sa + [DigitChar(a % 10)] == sb + [DigitChar(b % 10)];
      assert |sa| == |sb|;
      assert sa == NatToString(a)[..|sa|] == sb;
      assert DigitChar(a % 10) == NatToString(a)[|sa|] == DigitChar(b % 10);
      NatToStringInjective(a / 10, b / 10);
    }
  }

  /** Lexicographic order by character code: the model of `localeCompare`
      returning a value `<= 0`. */
  predicate LexLe(a: string, b: string)
    decreases |a|
  {
    a == [] || (b != [] && (a[0] < b[0] || (a[0] == b[0] && LexLe(a[1..], b[1..]))))
  }

  lemma {:induction false} LexLeTotal(a: string, b: string)
    ensures LexLe(a, b) || LexLe(b, a)
    decreases |a|
  {
    if a != [] && b != [] && a[0] == b[0] {
      LexLeTotal(a[1..], b[1..]);
    }
  }

  lemma {:induction false} LexLeTransitive(a: string, b: string, c: string)
    requires LexLe(a, b) && LexLe(b, c)
    ensures LexLe(a, c)
    decreases |a|
  {
    if a != [] && b != [] && c != [] && a[0] == b[0] && b[0] == c[0] {
      LexLeTransitive(a[1..], b[1..], c[1..]);
    }
  }

  lemma {:induction false} LexLeAntisymmetric(a: string, b: string)
    requires LexLe(a, b) && LexLe(b, a)
    ensures a == b
    decreases |a|
  {
    if a != [] && b != [] {
      LexLeAntisymmetric(a[1..], b[1..]);
      assert a == [a[0]] + a[1..];
      assert b == [b[0]] + b[1..];
    }
  }

  /** Position of the first colon, or the length when there is none. */
  function ColonIndex(s: string): (r: nat)
    ensures r <= |s|
  {
    if s == [] then 0 else if s[0] == ':' then 0 else 1 + ColonIndex(s[1..])
  }

  lemma {:induction false} ColonIndexAfterPrefix(p: string, r: string)
    requires ':' !in p
    ensures ColonIndex(p + ":" + r) == |p|
  {
    if p != [] {
      assert (p + ":" + r)[1..] == p[1..] + ":" + r;
      ColonIndexAfterPrefix(p[1..], r);
    }
  }

  /** A colon-free prefix is recovered from `p + ":" + rest`: the first colon
      ends it. */
  lemma ColonSplitUnique(p1: string, r1: string, p2: string, r2: string)
    requires ':' !in p1 && ':' !in p2
    requires p1 + ":" + r1 == p2 + ":" + r2
    ensures p1 == p2 && r1 == r2
  {
    var s := p1 + ":" + r1;
    ColonIndexAfterPrefix(p1, r1);
    ColonIndexAfterPrefix(p2, r2);
    assert p1 == s[..|p1|] == p2;
    assert r1 == s[|p1| + 1..] == r2;
  }
}
