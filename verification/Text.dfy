/** The few string operations the models share, on `seq<char>`. Letter case is ASCII case. */
module Text {

  predicate HasPrefix(s: string, p: string) {
    |p| <= |s| && s[..|p|] == p
  }

  predicate HasSuffix(s: string, t: string) {
    |t| <= |s| && s[|s| - |t|..] == t
  }

  function TrimPrefix(s: string, p: string): string {
    if HasPrefix(s, p) then s[|p|..] else s
  }

  function TrimSuffix(s: string, t: string): string {
    if HasSuffix(s, t) then s[..|s| - |t|] else s
  }

  function Count(s: string, c: char): nat {
    if s == [] then 0 else (if s[0] == c then 1 else 0) + Count(s[1..], c)
  }

  function LowerChar(c: char): char {
    if 'A' <= c <= 'Z' then c - 'A' + 'a' else c
  }

  function Lower(s: string): (r: string)
    ensures |r| == |s|
  {
    seq(|s|, i requires 0 <= i < |s| => LowerChar(s[i]))
  }

  predicate IsLower(s: string) {
    forall i :: 0 <= i < |s| ==> !('A' <= s[i] <= 'Z')
  }

  lemma LowerOfLower(s: string)
    requires IsLower(s)
    ensures Lower(s) == s
  {
  }

  lemma {:induction false} CountConcat(s: string, t: string, c: char)
    ensures Count(s + t, c) == Count(s, c) + Count(t, c)
  {
    if s == [] {
      assert s + t == t;
    } else {
      assert (s + t)[1..] == s[1..] + t;
      CountConcat(s[1..], t, c);
    }
  }

  lemma {:induction false} CountZero(s: string, c: char)
    ensures Count(s, c) == 0 <==> c !in s
  {
    if s != [] {
      CountZero(s[1..], c);
      assert s == [s[0]] + s[1..];
    }
  }

  /** Cutting a suffix that is there and putting it back is the identity. */
  lemma SuffixSplit(s: string, t: string)
    requires HasSuffix(s, t)
    ensures s == TrimSuffix(s, t) + t
  {
  }

  lemma SuffixOfConcat(s: string, t: string)
    ensures HasSuffix(s + t, t) && TrimSuffix(s + t, t) == s
  {
    assert (s + t)[|s + t| - |t|..] == t;
  }

  /** What stands before a suffix. */
  lemma SuffixIff(s: string, name: string, t: string)
    ensures HasSuffix(s, t) && TrimSuffix(s, t) == name <==> s == name + t
  {
    if HasSuffix(s, t) {
      SuffixSplit(s, t);
    }
    if s == name + t {
      SuffixOfConcat(name, t);
    }
  }

  /** Of two suffixes of one string the shorter is a suffix of the longer. */
  lemma SuffixesNest(s: string, t: string, u: string)
    requires HasSuffix(s, t) && HasSuffix(s, u) && |t| <= |u|
    ensures HasSuffix(u, t)
  {
    assert u[|u| - |t|..] == s[|s| - |u|..][|u| - |t|..];
  }

  /** A separator that the heads do not contain tells head and tail apart. */
  lemma SplitsOnce(a: string, b: string, c: string, d: string, sep: char)
    requires sep !in a && sep !in c && a + [sep] + b == c + [sep] + d
    ensures a == c && b == d
  {
    var whole := a + [sep] + b;
    assert whole[|a|] == sep && whole[|c|] == sep;
    assert forall i :: 0 <= i < |a| ==> whole[i] == a[i];
    assert forall i :: 0 <= i < |c| ==> whole[i] == c[i];
    assert |a| == |c|;
    assert whole[..|a|] == a && whole[..|c|] == c && whole[|a| + 1..] == b && whole[|c| + 1..] == d;
  }

  /** The last position of a character, or -1. */
  function LastIndex(s: string, c: char): (i: int)
    ensures -1 <= i < |s|
  {
    if s == [] then -1
    else if s[|s| - 1] == c then |s| - 1 else LastIndex(s[..|s| - 1], c)
  }

  lemma {:induction false} LastIndexAbsent(s: string, c: char)
    ensures LastIndex(s, c) == -1 <==> c !in s
  {
    if s != [] {
      LastIndexAbsent(s[..|s| - 1], c);
      assert s == s[..|s| - 1] + [s[|s| - 1]];
    }
  }

  lemma {:induction false} LastIndexIs(s: string, c: char)
    requires c in s
    ensures LastIndex(s, c) >= 0 && s[LastIndex(s, c)] == c && c !in s[LastIndex(s, c) + 1..]
  {
    if s[|s| - 1] != c {
      assert s == s[..|s| - 1] + [s[|s| - 1]];
      LastIndexIs(s[..|s| - 1], c);
      var i := LastIndex(s, c);
      assert s[i + 1..] == s[..|s| - 1][i + 1..] + [s[|s| - 1]];
    }
  }

  lemma {:induction false} LastIndexConcat(s: string, t: string, c: char)
    requires c !in t
    ensures LastIndex(s + t, c) == LastIndex(s, c)
  {
    if t == [] {
      assert s + t == s;
    } else {
      assert (s + t)[..|s + t| - 1] == s + t[..|t| - 1];
      LastIndexConcat(s, t[..|t| - 1], c);
    }
  }

  predicate IsSpace(c: char) {
    || '\t' <= c <= '\r' || c == ' ' || c == '\U{85}' || c == '\U{A0}' || c == '\U{1680}'
    || '\U{2000}' <= c <= '\U{200A}' || c == '\U{2028}' || c == '\U{2029}' || c == '\U{202F}'
    || c == '\U{205F}' || c == '\U{3000}'
  }

  function TrimLeft(s: string): string {
    if s != [] && IsSpace(s[0]) then TrimLeft(s[1..]) else s
  }

  function TrimRight(s: string): string {
    if s != [] && IsSpace(s[|s| - 1]) then TrimRight(s[..|s| - 1]) else s
  }

  function TrimSpace(s: string): string {
    TrimRight(TrimLeft(s))
  }

  lemma TrimSpaceFixed(s: string)
    requires s != [] && !IsSpace(s[0]) && !IsSpace(s[|s| - 1])
    ensures TrimSpace(s) == s
  {
  }
}
