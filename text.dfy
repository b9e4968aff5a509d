/** The pieces of Go's `strings` and `strconv` packages that the hook engine
    relies on, over `string` (a sequence of characters). Whitespace and case
    are ASCII only; integers are unbounded. */
module Text {
  import opened Wrappers

  // ---------------------------------------------------------------------------
  // Whitespace trimming (strings.TrimSpace)

  /** The ASCII characters that strings.TrimSpace removes. */
  predicate IsSpace(c: char) {
    c == ' ' || c == '\t' || c == '\n' || c == '\r' || c == '\U{000B}' || c == '\U{000C}'
  }

  /** A string with no whitespace at either end. */
  predicate IsTrimmed(s: string) {
    s == [] || (!IsSpace(s[0]) && !IsSpace(s[|s| - 1]))
  }

  function TrimLeftSpace(s: string): (r: string)
    ensures |r| <= |s| && r == s[|s| - |r|..]
    ensures forall i :: 0 <= i < |s| - |r| ==> IsSpace(s[i])
    ensures r != [] ==> !IsSpace(r[0])
  {
    if s != [] && IsSpace(s[0]) then
      var r := TrimLeftSpace(s[1..]);
      assert forall i :: 1 <= i < |s| - |r| ==> s[i] == s[1..][i - 1];
      r
    else s
  }

  function TrimRightSpace(s: string): (r: string)
    ensures |r| <= |s| && r == s[..|r|]
    ensures forall i :: |r| <= i < |s| ==> IsSpace(s[i])
    ensures r != [] ==> !IsSpace(r[|r| - 1])
  {
    if s != [] && IsSpace(s[|s| - 1]) then TrimRightSpace(s[..|s| - 1]) else s
  }

  /** strings.TrimSpace: the input without its leading and trailing whitespace. */
  function TrimSpace(s: string): (r: string)
    ensures |r| <= |s| && IsTrimmed(r)
    ensures IsTrimmed(s) ==> r == s
  {
    TrimRightSpace(TrimLeftSpace(s))
  }

  lemma TrimLeftKeeps(s: string, c: char)
    requires !IsSpace(c)
    ensures c in TrimLeftSpace(s) <==> c in s
  {
    var l := TrimLeftSpace(s);
    var d := |s| - |l|;
    assert l == s[d..];
    if c in s {
      var k :| 0 <= k < |s| && s[k] == c;
      assert l[k - d] == c;
    }
    if c in l {
      var k :| 0 <= k < |l| && l[k] == c;
      assert s[k + d] == c;
    }
  }

  lemma TrimRightKeeps(s: string, c: char)
    requires !IsSpace(c)
    ensures c in TrimRightSpace(s) <==> c in s
  {
    var r := TrimRightSpace(s);
    if c in s {
      var k :| 0 <= k < |s| && s[k] == c;
      assert r[k] == s[k];
    }
  }

  /** r is the slice of s starting at a, and everything of s before and after
      that slice is white space. */
  predicate IsSpaceTrimOf(r: string, s: string, a: int) {
    && 0 <= a <= a + |r| <= |s| && r == s[a..a + |r|]
    && (forall i :: 0 <= i < a ==> IsSpace(s[i]))
    && (forall i :: a + |r| <= i < |s| ==> IsSpace(s[i]))
  }

  /** strings.TrimSpace removes only a run of white space at each end: the
      result is the input between those two runs. */
  lemma TrimSpaceSlice(s: string)
    ensures IsSpaceTrimOf(TrimSpace(s), s, |s| - |TrimLeftSpace(s)|)
  {
    var l := TrimLeftSpace(s);
    var r := TrimRightSpace(l);
    assert TrimSpace(s) == r;
    PrefixOfSuffix(s, |s| - |l|, l, r);
  }

  /** A prefix r of the suffix l of s starting at a, followed in l only by
      white space, where s has only white space before a. */
  lemma PrefixOfSuffix(s: string, a: nat, l: string, r: string)
    requires a <= |s| && l == s[a..] && |r| <= |l| && r == l[..|r|]
    requires forall i :: 0 <= i < a ==> IsSpace(s[i])
    requires forall i :: |r| <= i < |l| ==> IsSpace(l[i])
    ensures IsSpaceTrimOf(r, s, a)
  {
    forall i | a + |r| <= i < |s|
      ensures IsSpace(s[i])
    {
      assert s[i] == l[i - a];
    }
  }

  /** Trimming keeps every non-space character and adds none. */
  lemma TrimSpaceKeeps(s: string, c: char)
    requires !IsSpace(c)
    ensures c in TrimSpace(s) <==> c in s
  {
    TrimLeftKeeps(s, c);
    TrimRightKeeps(TrimLeftSpace(s), c);
  }

  // ---------------------------------------------------------------------------
  // Splitting and joining on a one-character separator (strings.Split, strings.SplitN)

  /** Position of the first occurrence of `c` in `s`. */
  function IndexOf(s: string, c: char): (i: nat)
    requires c in s
    ensures i < |s| && s[i] == c && c !in s[..i]
  {
    if s[0] == c then 0
    else
      var j := IndexOf(s[1..], c);
      assert s[..j + 1] == [s[0]] + s[1..][..j];
      1 + j
  }

  /** strings.Join with a one-character separator. */
  function Join(parts: seq<string>, sep: char): string
    requires |parts| >= 1
  {
    if |parts| == 1 then parts[0] else parts[0] + [sep] + Join(parts[1..], sep)
  }

  /** strings.Split with a one-character separator. Like Go's, it always returns at
      least one part (Split("", c) == [""]); the parts never contain the separator
      and joining them back gives the input. */
  function Split(s: string, sep: char): (parts: seq<string>)
    ensures |parts| >= 1
    ensures forall p :: p in parts ==> sep !in p
    ensures Join(parts, sep) == s
    decreases |s|
  {
    if sep in s then
      var i := IndexOf(s, sep);
      var rest := Split(s[i + 1..], sep);
      assert s == s[..i] + [sep] + s[i + 1..];
      [s[..i]] + rest
    else [s]
  }

  /** The separator found by IndexOf is the first one. */
  lemma IndexOfFirst(s: string, sep: char, k: nat)
    requires k < |s| && s[k] == sep && sep !in s[..k]
    ensures IndexOf(s, sep) == k
  {
  }

  /** Split undoes Join when no part contains the separator. */
  lemma {:induction false} SplitJoin(parts: seq<string>, sep: char)
    requires |parts| >= 1
    requires forall p :: p in parts ==> sep !in p
    ensures Split(Join(parts, sep), sep) == parts
  {
    if |parts| > 1 {
      var s := Join(parts, sep);
      var rest := Join(parts[1..], sep);
      var k := |parts[0]|;
      assert s[..k] == parts[0] && s[k] == sep && s[k + 1..] == rest by {
        assert s == parts[0] + [sep] + rest;
      }
      assert sep !in s[..k] by {
        assert parts[0] in parts;
      }
      IndexOfFirst(s, sep, k);
      assert Split(rest, sep) == parts[1..] by {
        assert forall p :: p in parts[1..] ==> p in parts;
        SplitJoin(parts[1..], sep);
      }
      assert Split(s, sep) == [parts[0]] + parts[1..];
    }
  }

  /** strings.SplitN(s, c, 2) as used for `name=weight` pairs: None when there is
      no separator (Go's one-element result), else the text before the first
      separator and the text after it. */
  function Cut(s: string, c: char): (r: Option<(string, string)>)
    ensures r.None? <==> c !in s
    ensures r.Some? ==> c !in r.value.0 && s == r.value.0 + [c] + r.value.1
  {
    if c in s then
      var i := IndexOf(s, c);
      assert s == s[..i] + [c] + s[i + 1..];
      Some((s[..i], s[i + 1..]))
    else None
  }

  /** The separator Cut finds is the first one: text before it that has no
      separator comes back whole. */
  lemma CutFirst(h: string, c: char, d: string)
    requires c !in h
    ensures Cut(h + [c] + d, c) == Some((h, d))
  {
    var s := h + [c] + d;
    assert s[|h|] == c;
    var r := Cut(s, c);
    var a := r.value.0;
    assert a == s[..|h|] == h;
    assert r.value.1 == s[|h| + 1..] == d;
  }

  // ---------------------------------------------------------------------------
  // Case folding (strings.ToLower, ASCII letters only)

  function ToLowerChar(c: char): char {
    if 'A' <= c <= 'Z' then (c as int + 32) as char else c
  }

  function ToLower(s: string): (r: string)
    ensures |r| == |s|
    ensures forall i :: 0 <= i < |s| ==> r[i] == ToLowerChar(s[i])
  {
    if s == [] then [] else [ToLowerChar(s[0])] + ToLower(s[1..])
  }

  // ---------------------------------------------------------------------------
  // Decimal integers (strconv.Atoi, strconv.Itoa)

  predicate IsDigit(c: char) {
    '0' <= c <= '9'
  }

  predicate AllDigits(s: string) {
    forall i :: 0 <= i < |s| ==> IsDigit(s[i])
  }

  function DigitValue(c: char): nat
    requires IsDigit(c)
  {
    c as int - '0' as int
  }

  function DigitChar(d: nat): (c: char)
    requires d < 10
    ensures IsDigit(c) && DigitValue(c) == d
  {
    ('0' as int + d) as char
  }

  /** The value of a run of decimal digits, most significant first. */
  function DigitsValue(s: string): nat
    requires AllDigits(s)
  {
    if s == [] then 0 else 10 * DigitsValue(s[..|s| - 1]) + DigitValue(s[|s| - 1])
  }

  /** strconv.Atoi, without its 64-bit range check: an optional '+' or '-'
      followed by at least one ASCII digit; anything else (the empty string,
      a lone sign, spaces, a comma) is rejected. */
  function ParseInt(s: string): (r: Option<int>)
    ensures r.Some? ==> s != [] && forall i :: 0 <= i < |s| ==> s[i] != ',' && !IsSpace(s[i])
  {
    if |s| > 0 && (s[0] == '+' || s[0] == '-') then
      var digits := s[1..];
      if digits != [] && AllDigits(digits) then
        var v: int := DigitsValue(digits);
        Some(if s[0] == '-' then -v else v)
      else None
    else if s != [] && AllDigits(s) then Some(DigitsValue(s))
    else None
  }

  /** Exactly the texts made of digits, or of a '+' or '-' followed by at least
      one digit, are accepted; a value is negative only under a '-' sign. */
  lemma ParseIntAccepts(s: string)
    ensures ParseInt(s).Some? <==>
      (s != [] && AllDigits(s)) || (|s| >= 2 && (s[0] == '+' || s[0] == '-') && AllDigits(s[1..]))
    ensures ParseInt(s).Some? ==> if s[0] == '-' then ParseInt(s).value <= 0 else ParseInt(s).value >= 0
  {
  }

  /** The decimal digits of a positive number, without leading zeros. */
  function NatDigits(n: nat): (r: string)
    requires n > 0
    ensures r != [] && AllDigits(r) && r[0] != '0'
    ensures DigitsValue(r) == n
    decreases n
  {
    if n < 10 then [DigitChar(n)]
    else
      var r := NatDigits(n / 10) + [DigitChar(n % 10)];
      assert r[..|r| - 1] == NatDigits(n / 10);
      r
  }

  /** strconv.Itoa: "0" for zero, else the digits of |n| without a leading zero,
      prefixed by '-' exactly when n is negative. */
  function DecimalString(n: int): (r: string)
    ensures r != [] && (r[0] == '-' <==> n < 0)
    ensures n < 0 ==> |r| >= 2
    ensures n != 0 ==> r[if n < 0 then 1 else 0] != '0'
  {
    if n == 0 then "0"
    else if n < 0 then "-" + NatDigits(-n)
    else NatDigits(n)
  }

  /** Atoi reads Itoa's text back as the same number; the text has no comma and
      no space. */
  lemma DecimalStringParses(n: int)
    ensures ParseInt(DecimalString(n)) == Some(n)
    ensures forall i :: 0 <= i < |DecimalString(n)| ==> DecimalString(n)[i] != ',' && !IsSpace(DecimalString(n)[i])
  {
    var r := DecimalString(n);
    if n < 0 {
      var d := NatDigits(-n);
      assert r == "-" + d;
      assert r[1..] == d;
      assert r[0] == '-';
    } else if n > 0 {
      assert r == NatDigits(n);
      assert AllDigits(r) && DigitsValue(r) == n;
      assert IsDigit(r[0]);
      assert ParseInt(r) == Some(DigitsValue(r));
    }
  }
}
