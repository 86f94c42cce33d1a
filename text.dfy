/**
 * The string operations the components use: case mapping, `includes`,
 * `startsWith`, `trim`, capitalising the first character, `join` and
 * ordering of ISO date strings.
 */
module Text {

  /** `toLowerCase` on one character (ASCII letters only). */
  function LowerChar(c: char): char {
    if 'A' <= c <= 'Z' then (c as int + 32) as char else c
  }

  /** `toUpperCase` on one character (ASCII letters only). */
  function UpperChar(c: char): char {
    if 'a' <= c <= 'z' then (c as int - 32) as char else c
  }

  function ToLower(s: string): (r: string)
    ensures |r| == |s|
    ensures forall i :: 0 <= i < |s| ==> r[i] == LowerChar(s[i])
  {
    seq(|s|, i requires 0 <= i < |s| => LowerChar(s[i]))
  }

  /** Lower-casing twice is lower-casing once. */
  lemma LowerIdempotent(s: string)
    ensures ToLower(ToLower(s)) == ToLower(s)
  {
  }

  /** `s.startsWith(prefix)`. */
  predicate StartsWith(s: string, prefix: string) {
    |prefix| <= |s| && s[..|prefix|] == prefix
  }

  /** `s.includes(t)`: `t` occurs in `s` at some offset. */
  predicate Includes(s: string, t: string)
    decreases |s|
  {
    StartsWith(s, t) || (s != [] && Includes(s[1..], t))
  }

  /** `Includes` holds exactly when `t` occurs in `s` at some offset. */
  lemma {:induction false} IncludesAt(s: string, t: string, k: nat)
    requires k + |t| <= |s| && s[k..k + |t|] == t
    ensures Includes(s, t)
    decreases k
  {
    if k > 0 {
      assert s[1..][k - 1..k - 1 + |t|] == s[k..k + |t|];
      IncludesAt(s[1..], t, k - 1);
    }
  }

  lemma {:induction false} IncludesWitness(s: string, t: string) returns (k: nat)
    requires Includes(s, t)
    ensures k + |t| <= |s| && s[k..k + |t|] == t
    decreases |s|
  {
    if StartsWith(s, t) {
      k := 0;
    } else {
      var k' := IncludesWitness(s[1..], t);
      assert s[1..][k'..k' + |t|] == s[k' + 1..k' + 1 + |t|];
      k := k' + 1;
    }
  }

  /** Every string includes the empty string. */
  lemma IncludesEmpty(s: string)
    ensures Includes(s, "")
  {
    assert StartsWith(s, "");
  }

  /**
   * The characters `trim` removes: the ECMAScript WhiteSpace and
   * LineTerminator code points.
   */
  predicate IsSpace(c: char) {
    c == ' ' || c == '\t' || c == '\n' || c == '\r' || c == '\U{000B}' || c == '\U{000C}'
    || c == '\U{00A0}' || c == '\U{1680}' || ('\U{2000}' <= c <= '\U{200A}')
    || c == '\U{2028}' || c == '\U{2029}' || c == '\U{202F}' || c == '\U{205F}'
    || c == '\U{3000}' || c == '\U{FEFF}'
  }

  function TrimStart(s: string): (r: string)
    ensures |r| <= |s| && r == s[|s| - |r|..]
    ensures r == [] || !IsSpace(r[0])
    ensures forall i :: 0 <= i < |s| - |r| ==> IsSpace(s[i])
  {
    if s != [] && IsSpace(s[0]) then TrimStart(s[1..]) else s
  }

  function TrimEnd(s: string): (r: string)
    ensures |r| <= |s| && r == s[..|r|]
    ensures r == [] || !IsSpace(r[|r| - 1])
    ensures forall i :: |r| <= i < |s| ==> IsSpace(s[i])
  {
    if s != [] && IsSpace(s[|s| - 1]) then TrimEnd(s[..|s| - 1]) else s
  }

  /** `s.trim()`. */
  function Trim(s: string): string {
    TrimEnd(TrimStart(s))
  }

  /** `trim()` yields the empty string exactly when every character is white space. */
  lemma TrimEmptyIffBlank(s: string)
    ensures Trim(s) == "" <==> forall i :: 0 <= i < |s| ==> IsSpace(s[i])
  {
    var a := TrimStart(s);
    assert Trim(s) == "" ==> a == [];
  }

  /** `s.charAt(0).toUpperCase() + s.slice(1)`. */
  function Capitalise(s: string): (r: string)
    ensures |r| == |s|
    ensures s != [] ==> r[0] == UpperChar(s[0]) && r[1..] == s[1..]
  {
    if s == [] then [] else [UpperChar(s[0])] + s[1..]
  }

  /**
   * `xs.join(sep)`: the parts in order with `sep` between neighbours, so the
   * first part is a prefix and the result is as long as the parts plus one
   * separator per gap.
   */
  function Join(xs: seq<string>, sep: string): (r: string)
    ensures xs == [] ==> r == ""
    ensures |xs| == 1 ==> r == xs[0]
    ensures xs != [] ==> |xs[0]| <= |r| && r[..|xs[0]|] == xs[0]
    ensures xs != [] ==> |r| == TotalLength(xs) + (|xs| - 1) * |sep|
  {
    if xs == [] then ""
    else if |xs| == 1 then xs[0]
    else xs[0] + sep + Join(xs[1..], sep)
  }

  /** The summed length of the parts. */
  function TotalLength(xs: seq<string>): nat {
    if xs == [] then 0 else |xs[0]| + TotalLength(xs[1..])
  }

  /** With two or more parts, the first part and a separator precede the join of the rest. */
  lemma JoinCons(xs: seq<string>, sep: string)
    requires |xs| >= 2
    ensures Join(xs, sep) == xs[0] + sep + Join(xs[1..], sep)
  {
  }

  /** Each joined part occurs in the joined string. */
  lemma {:induction false} JoinIncludesPart(xs: seq<string>, sep: string, i: nat)
    requires i < |xs|
    ensures Includes(Join(xs, sep), xs[i])
  {
    var j := Join(xs, sep);
    if i == 0 {
      if |xs| == 1 {
        IncludesAt(j, xs[0], 0);
      } else {
        assert j[0..|xs[0]|] == xs[0];
        IncludesAt(j, xs[0], 0);
      }
    } else {
      JoinIncludesPart(xs[1..], sep, i - 1);
      var rest := Join(xs[1..], sep);
      var k := IncludesWitness(rest, xs[i]);
      var off := |xs[0]| + |sep|;
      assert j == xs[0] + sep + rest;
      assert j[off + k..off + k + |xs[i]|] == rest[k..k + |xs[i]|];
      IncludesAt(j, xs[i], off + k);
    }
  }

  /** Lexicographic `a <= b` on strings, the order of ISO `yyyy-mm-dd` dates. */
  predicate LexLe(a: string, b: string) {
    a == [] || (b != [] && (a[0] < b[0] || (a[0] == b[0] && LexLe(a[1..], b[1..]))))
  }

  lemma {:induction false} LexLeReflexive(a: string)
    ensures LexLe(a, a)
  {
    if a != [] {
      LexLeReflexive(a[1..]);
    }
  }
}
