/**
  * The JavaScript string operations the pages use, over strings of Unicode code points:
  * toLowerCase (on the Latin-1 letters), includes, trim, and length in UTF-16 code units.
  */
module JsText {

  /** `c.toLowerCase()` for A-Z and the Latin-1 capitals À-Þ (except ×); other characters are kept. */
  function LowerChar(c: char): (l: char)
    ensures !IsUpper(l)
  {
    if IsUpper(c) then (c as int + 32) as char else c
  }

  predicate IsUpper(c: char) {
    ('A' <= c <= 'Z') || (0xC0 <= c as int <= 0xDE && c as int != 0xD7)
  }

  /** `s.toLowerCase()`, character by character. */
  function ToLower(s: string): (l: string)
    ensures |l| == |s|
    ensures forall i :: 0 <= i < |s| ==> l[i] == LowerChar(s[i])
  {
    seq(|s|, i requires 0 <= i < |s| => LowerChar(s[i]))
  }

  /** Lower-casing twice is lower-casing once. */
  lemma ToLowerIdempotent(s: string)
    ensures ToLower(ToLower(s)) == ToLower(s)
  {}

  /** Lower-casing works piece by piece. */
  lemma ToLowerAppend(a: string, b: string)
    ensures ToLower(a + b) == ToLower(a) + ToLower(b)
  {
    assert forall i :: 0 <= i < |a + b| ==> (a + b)[i] == if i < |a| then a[i] else b[i - |a|];
  }

  /** `s.includes(sub)`: sub occurs in s at some position; the empty string occurs everywhere. */
  predicate Includes(s: string, sub: string) {
    exists i :: 0 <= i <= |s| - |sub| && OccursAt(s, sub, i)
  }

  /** sub occurs in s starting at position i. */
  predicate OccursAt(s: string, sub: string, i: int) {
    0 <= i <= |s| - |sub| && s[i..i + |sub|] == sub
  }

  /** A string includes its own prefixes and, more generally, every piece of it. */
  lemma IncludesPiece(a: string, b: string, c: string, sub: string)
    requires sub <= b
    ensures Includes(a + b + c, sub)
  {
    var s := a + b + c;
    assert s[|a|..|a| + |sub|] == sub by {
      assert forall k :: 0 <= k < |sub| ==> s[|a| + k] == b[k] == sub[k];
    }
    assert OccursAt(s, sub, |a|);
  }

  /** The white space and line terminators that `trim` and `\s` recognise. */
  predicate IsSpace(c: char) {
    var n := c as int;
    n == 0x09 || n == 0x0A || n == 0x0B || n == 0x0C || n == 0x0D || n == 0x20 || n == 0xA0
    || n == 0x1680 || (0x2000 <= n <= 0x200A) || n == 0x2028 || n == 0x2029 || n == 0x202F
    || n == 0x205F || n == 0x3000 || n == 0xFEFF
  }

  /** Every character of s is white space. */
  predicate AllSpace(s: string) {
    forall k :: 0 <= k < |s| ==> IsSpace(s[k])
  }

  /** The white space before the first other character removed. */
  function TrimStart(s: string): string {
    if |s| > 0 && IsSpace(s[0]) then TrimStart(s[1..]) else s
  }

  /** A suffix of s[1..] is a suffix of s. */
  lemma DropFirstSuffix(s: string, r: string)
    requires |s| > 0 && |r| < |s| && r == s[1..][|s| - 1 - |r|..]
    ensures r == s[|s| - |r|..]
  {
    assert s[1..][|s| - 1 - |r|..] == s[|s| - |r|..];
  }

  /** A white space followed by white space is white space. */
  lemma SpaceThenAllSpace(s: string, cut: nat)
    requires 0 < cut <= |s| && IsSpace(s[0]) && AllSpace(s[1..][..cut - 1])
    ensures AllSpace(s[..cut])
  {
    forall k | 0 <= k < cut
      ensures IsSpace(s[..cut][k])
    {
      if k > 0 {
        assert s[..cut][k] == s[1..][..cut - 1][k - 1];
      }
    }
  }

  /** TrimStart keeps a suffix of s that does not start with white space, and cuts only white space. */
  lemma {:induction false} TrimStartShape(s: string)
    ensures var r := TrimStart(s);
      && |r| <= |s| && r == s[|s| - |r|..]
      && (r != [] ==> !IsSpace(r[0]))
      && AllSpace(s[..|s| - |r|])
  {
    if |s| > 0 && IsSpace(s[0]) {
      var t := s[1..];
      var r := TrimStart(t);
      TrimStartShape(t);
      assert TrimStart(s) == r;
      DropFirstSuffix(s, r);
      SpaceThenAllSpace(s, |s| - |r|);
    }
  }

  /** The white space after the last other character removed. */
  function TrimEnd(s: string): string {
    if |s| > 0 && IsSpace(s[|s| - 1]) then TrimEnd(s[..|s| - 1]) else s
  }

  /** A prefix of s without its last character is a prefix of s. */
  lemma DropLastPrefix(s: string, r: string)
    requires |s| > 0 && |r| < |s| && r == s[..|s| - 1][..|r|]
    ensures r == s[..|r|]
  {
    assert s[..|s| - 1][..|r|] == s[..|r|];
  }

  /** White space followed by a white space is white space. */
  lemma AllSpaceThenSpace(s: string, from: nat)
    requires from < |s| && AllSpace(s[..|s| - 1][from..]) && IsSpace(s[|s| - 1])
    ensures AllSpace(s[from..])
  {
    forall k | 0 <= k < |s| - from
      ensures IsSpace(s[from..][k])
    {
      if k < |s| - 1 - from {
        assert s[from..][k] == s[..|s| - 1][from..][k];
      }
    }
  }

  /** TrimEnd keeps a prefix of s that does not end with white space, and cuts only white space. */
  lemma {:induction false} TrimEndShape(s: string)
    ensures var r := TrimEnd(s);
      && |r| <= |s| && r == s[..|r|]
      && (r != [] ==> !IsSpace(r[|r| - 1]))
      && AllSpace(s[|r|..])
  {
    if |s| > 0 && IsSpace(s[|s| - 1]) {
      var t := s[..|s| - 1];
      var r := TrimEnd(t);
      TrimEndShape(t);
      assert TrimEnd(s) == r;
      DropLastPrefix(s, r);
      AllSpaceThenSpace(s, |r|);
    }
  }

  /** `s.trim()` */
  function Trim(s: string): string {
    TrimEnd(TrimStart(s))
  }

  /**
    * The trimmed string is a slice of s with no white space at either end, and
    * everything cut away is white space.
    */
  lemma TrimShape(s: string)
    ensures var t, i := Trim(s), |s| - |TrimStart(s)|;
      && 0 <= i <= i + |t| <= |s|
      && t == s[i..i + |t|]
      && AllSpace(s[..i]) && AllSpace(s[i + |t|..])
      && (t != [] ==> !IsSpace(t[0]) && !IsSpace(t[|t| - 1]))
  {
    var u := TrimStart(s);
    var t := TrimEnd(u);
    var i := |s| - |u|;
    TrimStartShape(s);
    TrimEndShape(u);
    PrefixOfSuffix(s, i, u, t);
    if t != [] {
      assert t[0] == u[0];
    }
  }

  /** A prefix t of the suffix u of s starting at i is the slice of s from i, followed in s by the rest of u. */
  lemma PrefixOfSuffix(s: string, i: int, u: string, t: string)
    requires 0 <= i <= |s| && u == s[i..] && |t| <= |u| && t == u[..|t|]
    ensures t == s[i..i + |t|] && s[i + |t|..] == u[|t|..]
  {}

  /** Trimming twice is trimming once. */
  lemma TrimIdempotent(s: string)
    ensures Trim(Trim(s)) == Trim(s)
  {
    TrimShape(s);
    var t := Trim(s);
    assert TrimStart(t) == t;
  }

  /** Only a string made of white space trims to nothing. */
  lemma TrimEmptyIff(s: string)
    ensures Trim(s) == [] <==> AllSpace(s)
  {
    TrimShape(s);
    var i := |s| - |TrimStart(s)|;
    if Trim(s) == [] {
      assert s == s[..i] + s[i..];
    } else {
      assert !IsSpace(s[i]);
    }
  }

  /** The number of UTF-16 code units of one code point. */
  function Utf16Units(c: char): nat {
    if c as int > 0xFFFF then 2 else 1
  }

  /** `s.length`: the number of UTF-16 code units, two for a code point above U+FFFF. */
  function Utf16Length(s: string): (n: nat)
    ensures |s| <= n <= 2 * |s|
  {
    if s == [] then 0 else Utf16Length(s[..|s| - 1]) + Utf16Units(s[|s| - 1])
  }

  /** Without code points above U+FFFF, the UTF-16 length is the number of characters. */
  lemma {:induction false} Utf16LengthBasic(s: string)
    requires forall k :: 0 <= k < |s| ==> s[k] as int <= 0xFFFF
    ensures Utf16Length(s) == |s|
  {
    if s != [] {
      Utf16LengthBasic(s[..|s| - 1]);
    }
  }
}
