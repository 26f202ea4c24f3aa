/** The JavaScript string operations the modelled code relies on:
    `trim`, `split`, `includes`, `indexOf`, `startsWith`, `endsWith`,
    `toLowerCase` (ASCII letters only), `join`, and decimal rendering of
    a number. Strings are sequences of Unicode code points. */
module Strings {

  /** The characters JavaScript's `trim` removes and `\s` matches:
      WhiteSpace and LineTerminator of ECMAScript section 12.2 and 12.3. */
  predicate IsJsSpace(c: char) {
    c == ' ' || c == '\t' || c == '\n' || c == '\r' || c == '\U{000B}' || c == '\U{000C}'
    || c == '\U{00A0}' || c == '\U{FEFF}' || c == '\U{1680}'
    || ('\U{2000}' <= c <= '\U{200A}')
    || c == '\U{2028}' || c == '\U{2029}' || c == '\U{202F}' || c == '\U{205F}' || c == '\U{3000}'
  }

  predicate StartsWith(s: string, prefix: string) {
    |prefix| <= |s| && s[..|prefix|] == prefix
  }

  predicate EndsWith(s: string, suffix: string) {
    |suffix| <= |s| && s[|s| - |suffix|..] == suffix
  }

  /** `sub` occurs in `s` starting at position `j`. */
  predicate OccursAt(s: string, sub: string, j: int) {
    0 <= j && j + |sub| <= |s| && s[j..j + |sub|] == sub
  }

  /** First position at or after `from` where `sub` occurs, or -1. */
  function IndexFrom(s: string, sub: string, from: nat): (r: int)
    ensures r == -1 || (from <= r && OccursAt(s, sub, r))
    ensures r != -1 ==> forall j :: from <= j < r ==> !OccursAt(s, sub, j)
    ensures r == -1 ==> forall j :: from <= j ==> !OccursAt(s, sub, j)
    decreases |s| - from
  {
    if from + |sub| > |s| then -1
    else if s[from..from + |sub|] == sub then from
    else IndexFrom(s, sub, from + 1)
  }

  /** JavaScript `s.indexOf(sub)`. */
  function IndexOf(s: string, sub: string): (r: int)
    ensures r == -1 || OccursAt(s, sub, r)
    ensures r != -1 ==> forall j :: 0 <= j < r ==> !OccursAt(s, sub, j)
    ensures r == -1 <==> forall j :: !OccursAt(s, sub, j)
  {
    IndexFrom(s, sub, 0)
  }

  /** JavaScript `s.includes(sub)`. */
  predicate Contains(s: string, sub: string) {
    IndexOf(s, sub) != -1
  }

  lemma ContainsAt(s: string, sub: string, j: int)
    requires OccursAt(s, sub, j)
    ensures Contains(s, sub)
  {
  }

  /** Whatever a string contains, every string around it contains too. */
  lemma ContainsInside(p: string, x: string, q: string, sub: string)
    requires Contains(x, sub)
    ensures Contains(p + x + q, sub)
  {
    var j := IndexOf(x, sub);
    var w := p + x + q;
    assert w[|p| + j..|p| + j + |sub|] == x[j..j + |sub|];
    ContainsAt(w, sub, |p| + j);
  }

  /** A string without one of the characters of `sub` does not contain
      it. */
  lemma AbsentAt(s: string, sub: string, k: nat)
    requires k < |sub| && sub[k] !in s
    ensures IndexOf(s, sub) == -1
  {
  }

  /** A string contains itself, and `a + b` contains `b`. */
  lemma ContainsSuffix(a: string, b: string)
    ensures Contains(a + b, b)
  {
    assert (a + b)[|a|..|a| + |b|] == b;
    ContainsAt(a + b, b, |a|);
  }

  lemma ContainsPrefix(a: string, b: string)
    ensures Contains(a + b, a)
  {
    assert (a + b)[0..|a|] == a;
    ContainsAt(a + b, a, 0);
  }

  // ---------------------------------------------------------------- trim

  function TrimStart(s: string): (r: string)
    ensures |r| <= |s| && r == s[|s| - |r|..]
    ensures r == [] || !IsJsSpace(r[0])
    ensures forall i :: 0 <= i < |s| - |r| ==> IsJsSpace(s[i])
  {
    if |s| > 0 && IsJsSpace(s[0]) then TrimStart(s[1..]) else s
  }

  function TrimEnd(s: string): (r: string)
    ensures |r| <= |s| && r == s[..|r|]
    ensures r == [] || !IsJsSpace(r[|r| - 1])
    ensures forall i :: |r| <= i < |s| ==> IsJsSpace(s[i])
  {
    if |s| > 0 && IsJsSpace(s[|s| - 1]) then TrimEnd(s[..|s| - 1]) else s
  }

  /** Every character of `s` is white space. */
  predicate AllSpace(s: string) {
    forall i :: 0 <= i < |s| ==> IsJsSpace(s[i])
  }

  /** What `TrimStart` drops is white space. */
  lemma StartDropped(s: string)
    ensures AllSpace(s[..|s| - |TrimStart(s)|])
  {
    var p := s[..|s| - |TrimStart(s)|];
    assert forall i :: 0 <= i < |p| ==> p[i] == s[i];
  }

  /** What `TrimEnd` drops is white space. */
  lemma EndDropped(t: string)
    ensures AllSpace(t[|TrimEnd(t)|..])
  {
    var q := t[|TrimEnd(t)|..];
    assert forall i :: 0 <= i < |q| ==> q[i] == t[|TrimEnd(t)| + i];
  }

  /** `s` splits into what `TrimStart` drops, what `TrimEnd` keeps of the
      rest, and what `TrimEnd` drops. */
  lemma TrimSplit(s: string) returns (p: string, q: string)
    ensures s == p + TrimEnd(TrimStart(s)) + q && AllSpace(p) && AllSpace(q)
  {
    var t := TrimStart(s);
    var r := TrimEnd(t);
    StartDropped(s);
    EndDropped(t);
    Reassemble(s, t, r);
    p, q := s[..|s| - |t|], t[|r|..];
  }

  /** A suffix `t` of `s` and a prefix `r` of `t` put `s` back together. */
  lemma Reassemble(s: string, t: string, r: string)
    requires |t| <= |s| && t == s[|s| - |t|..]
    requires |r| <= |t| && r == t[..|r|]
    ensures s == s[..|s| - |t|] + r + t[|r|..]
  {
    assert s == s[..|s| - |t|] + t;
    assert t == r + t[|r|..];
  }

  /** JavaScript `s.trim()`: the result neither starts nor ends with white
      space; `TrimMeaning` shows that exactly the leading and trailing white
      space of `s` is gone. */
  function Trim(s: string): (r: string)
    ensures r == [] || (!IsJsSpace(r[0]) && !IsJsSpace(r[|r| - 1]))
  {
    TrimEnd(TrimStart(s))
  }

  /** `s` is its trimmed form with white space before and after it. */
  lemma TrimMeaning(s: string)
    ensures exists p, q :: s == p + Trim(s) + q && AllSpace(p) && AllSpace(q)
  {
    var p, q := TrimSplit(s);
  }

  // --------------------------------------------------------------- split

  /** Splits `s` at every character that `isSep` accepts; the pieces keep
      every other character, empty pieces included (JavaScript `split`
      with a one-character separator). */
  function SplitBy(s: string, isSep: char -> bool): (r: seq<string>)
    ensures |r| >= 1
    ensures forall i, k :: 0 <= i < |r| && 0 <= k < |r[i]| ==> !isSep(r[i][k])
  {
    if |s| == 0 then [""]
    else
      var rest := SplitBy(s[1..], isSep);
      if isSep(s[0]) then [""] + rest
      else [[s[0]] + rest[0]] + rest[1..]
  }

  /** Number of characters of `s` that `isSep` accepts. */
  function CountWhere(s: string, isSep: char -> bool): nat {
    if |s| == 0 then 0 else (if isSep(s[0]) then 1 else 0) + CountWhere(s[1..], isSep)
  }

  /** JavaScript `parts.join(sep)`. */
  function Join(parts: seq<string>, sep: string): string {
    if |parts| == 0 then ""
    else if |parts| == 1 then parts[0]
    else parts[0] + sep + Join(parts[1..], sep)
  }

  lemma {:induction false} SplitByCount(s: string, isSep: char -> bool)
    ensures |SplitBy(s, isSep)| == CountWhere(s, isSep) + 1
  {
    if |s| > 0 {
      SplitByCount(s[1..], isSep);
    }
  }

  lemma JoinGrowHead(x: char, parts: seq<string>, sep: string)
    requires |parts| >= 1
    ensures Join([[x] + parts[0]] + parts[1..], sep) == [x] + Join(parts, sep)
  {
    var q := [[x] + parts[0]] + parts[1..];
    if |parts| > 1 {
      assert q[1..] == parts[1..];
    }
  }

  /** Joining the pieces with the separator gives the string back. */
  lemma {:induction false} SplitJoin(s: string, c: char)
    ensures Join(SplitBy(s, x => x == c), [c]) == s
  {
    var isSep := x => x == c;
    if |s| > 0 {
      var rest := SplitBy(s[1..], isSep);
      SplitJoin(s[1..], c);
      if s[0] == c {
        assert SplitBy(s, isSep) == [""] + rest;
        assert s == [c] + s[1..];
      } else {
        JoinGrowHead(s[0], rest, [c]);
        assert s == [s[0]] + s[1..];
      }
    }
  }

  /** JavaScript `s.split(c)` for a one-character separator. */
  function Split(s: string, c: char): (r: seq<string>)
    ensures |r| >= 1
    ensures forall i :: 0 <= i < |r| ==> c !in r[i]
  {
    var r := SplitBy(s, x => x == c);
    assert forall i :: 0 <= i < |r| ==> c !in r[i] by {
      forall i | 0 <= i < |r| ensures c !in r[i] {
        assert forall k :: 0 <= k < |r[i]| ==> r[i][k] != c;
      }
    }
    r
  }

  /** A string without a separator splits into itself. */
  lemma {:induction false} SplitByNoSep(s: string, isSep: char -> bool)
    requires forall i :: 0 <= i < |s| ==> !isSep(s[i])
    ensures SplitBy(s, isSep) == [s]
  {
    if |s| > 0 {
      SplitByNoSep(s[1..], isSep);
      assert s == [s[0]] + s[1..];
    }
  }

  /** The first separator ends the first piece. */
  lemma {:induction false} SplitByAround(a: string, x: char, b: string, isSep: char -> bool)
    requires forall i :: 0 <= i < |a| ==> !isSep(a[i])
    requires isSep(x)
    ensures SplitBy(a + [x] + b, isSep) == [a] + SplitBy(b, isSep)
  {
    var s := a + [x] + b;
    if |a| == 0 {
      assert s[1..] == b;
    } else {
      assert s[1..] == a[1..] + [x] + b;
      SplitByAround(a[1..], x, b, isSep);
      assert [a[0]] + a[1..] == a;
    }
  }

  /** `(k + c + v).split(c)` starts with `k` and then `v`'s first piece. */
  lemma SplitPair(k: string, c: char, v: string)
    requires c !in k
    ensures Split(k + [c] + v, c) == [k] + Split(v, c)
    ensures c !in v ==> Split(k + [c] + v, c) == [k, v]
  {
    SplitByAround(k, c, v, x => x == c);
    if c !in v {
      SplitByNoSep(v, x => x == c);
    }
  }

  /** The pieces of a split are the separators' count plus one. */
  lemma SplitCount(s: string, c: char)
    ensures |Split(s, c)| == CountWhere(s, x => x == c) + 1
  {
    SplitByCount(s, x => x == c);
  }

  /** `parts.filter(Boolean)`: the non-empty pieces, in order. */
  function NonEmpty(parts: seq<string>): (r: seq<string>)
    ensures |r| <= |parts|
  {
    if |parts| == 0 then []
    else (if parts[0] == "" then [] else [parts[0]]) + NonEmpty(parts[1..])
  }

  /** Every piece `filter(Boolean)` keeps is a non-empty piece of the
      list. */
  lemma {:induction false} NonEmptyMeaning(parts: seq<string>)
    ensures forall i :: 0 <= i < |NonEmpty(parts)| ==> NonEmpty(parts)[i] != "" && NonEmpty(parts)[i] in parts
  {
    if |parts| > 0 {
      NonEmptyMeaning(parts[1..]);
      assert forall x :: x in parts[1..] ==> x in parts;
    }
  }

  /** JavaScript `s.split(/\s+/)`: a run of white space is one separator, so
      empty pieces survive only at the two ends. */
  function SplitSpaces(s: string): (r: seq<string>)
    ensures |r| >= 1
    ensures forall i, k :: 0 <= i < |r| && 0 <= k < |r[i]| ==> !IsJsSpace(r[i][k])
  {
    var pieces := SplitBy(s, IsJsSpace);
    if |pieces| <= 2 then pieces
    else
      var inner := pieces[1..|pieces| - 1];
      NonEmptyMeaning(inner);
      assert forall x :: x in inner ==> x in pieces;
      [pieces[0]] + NonEmpty(inner) + [pieces[|pieces| - 1]]
  }

  /** `s.replace(/[...]/g, '')`: `s` without the characters in `drop`. */
  function RemoveChars(s: string, drop: set<char>): (r: string)
    ensures |r| <= |s|
  {
    if |s| == 0 then ""
    else (if s[0] in drop then "" else [s[0]]) + RemoveChars(s[1..], drop)
  }

  /** The result holds exactly the characters of `s` that are not in
      `drop`. */
  lemma {:induction false} RemoveCharsMeaning(s: string, drop: set<char>)
    ensures forall c :: c in RemoveChars(s, drop) ==> c in s && c !in drop
    ensures forall c :: c in s && c !in drop ==> c in RemoveChars(s, drop)
  {
    if |s| > 0 {
      RemoveCharsMeaning(s[1..], drop);
      assert forall c :: c in s <==> c == s[0] || c in s[1..];
    }
  }

  /** `s.replace(sub, rep)` with a string pattern: only the first
      occurrence is replaced. */
  function ReplaceFirst(s: string, sub: string, rep: string): string {
    var k := IndexOf(s, sub);
    if k == -1 then s else s[..k] + rep + s[k + |sub|..]
  }

  // --------------------------------------------------------- case and digits

  function LowerChar(c: char): char {
    if 'A' <= c <= 'Z' then (c as int + 32) as char else c
  }

  /** JavaScript `toLowerCase` restricted to ASCII letters. */
  function ToLower(s: string): (r: string)
    ensures |r| == |s|
    ensures forall i :: 0 <= i < |s| ==> r[i] == LowerChar(s[i])
    ensures forall i :: 0 <= i < |r| ==> !('A' <= r[i] <= 'Z')
  {
    seq(|s|, i requires 0 <= i < |s| => LowerChar(s[i]))
  }

  /** Lower-casing twice changes nothing more. */
  lemma ToLowerIdempotent(s: string)
    ensures ToLower(ToLower(s)) == ToLower(s)
  {
    var t := ToLower(s);
    assert forall i :: 0 <= i < |t| ==> LowerChar(t[i]) == t[i];
  }

  function UpperChar(c: char): char {
    if 'a' <= c <= 'z' then (c as int - 32) as char else c
  }

  /** JavaScript `toUpperCase` restricted to ASCII letters. */
  function ToUpper(s: string): (r: string)
    ensures |r| == |s|
    ensures forall i :: 0 <= i < |s| ==> r[i] == UpperChar(s[i])
    ensures forall i :: 0 <= i < |r| ==> !('a' <= r[i] <= 'z')
  {
    seq(|s|, i requires 0 <= i < |s| => UpperChar(s[i]))
  }

  /** Upper-casing twice changes nothing more. */
  lemma ToUpperIdempotent(s: string)
    ensures ToUpper(ToUpper(s)) == ToUpper(s)
  {
    var t := ToUpper(s);
    assert forall i :: 0 <= i < |t| ==> UpperChar(t[i]) == t[i];
  }

  function DigitChar(d: nat): char
    requires d < 10
  {
    "0123456789"[d]
  }

  /** JavaScript `String(n)` for a non-negative integer. */
  function NatToString(n: nat): (r: string)
    ensures |r| >= 1
    ensures forall i :: 0 <= i < |r| ==> '0' <= r[i] <= '9'
  {
    if n < 10 then [DigitChar(n)] else NatToString(n / 10) + [DigitChar(n % 10)]
  }

  /** JavaScript `String(n)` for any integer. */
  function IntToString(n: int): string {
    if n < 0 then "-" + NatToString(-n) else NatToString(n)
  }
}
