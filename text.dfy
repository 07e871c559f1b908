/**
  * The handful of java.lang.String / Integer operations the game's protocol
  * and score handling rely on: decimal formatting of ints, Integer.parseInt,
  * String.indexOf / substring, and String.split with a one-character pattern.
  */
module Text {

  predicate IsDigit(c: char) { '0' <= c <= '9' }

  predicate AllDigits(s: string) { forall i :: 0 <= i < |s| ==> IsDigit(s[i]) }

  function DigitValue(c: char): (d: nat)
    requires IsDigit(c)
    ensures d < 10
  {
    c as int - '0' as int
  }

  function DigitChar(d: nat): (c: char)
    requires d < 10
    ensures IsDigit(c) && DigitValue(c) == d
  {
    ('0' as int + d) as char
  }

  /**
    * Decimal digits of a natural number, most significant first, no leading
    * zeros. (The leading digits are written by IntToString, which for a
    * natural number is the same thing.)
    */
  function NatToString(n: nat): (s: string)
    ensures |s| >= 1 && AllDigits(s)
    ensures n >= 10 ==> s[0] != '0'
    decreases n, 0
  {
    if n < 10 then [DigitChar(n)] else IntToString(n / 10) + [DigitChar(n % 10)]
  }

  /** What Java's string concatenation writes for an int. */
  function IntToString(n: int): (s: string)
    ensures |s| >= 1
    ensures n >= 0 ==> s == NatToString(n)
    ensures ' ' !in s && ':' !in s && '\n' !in s
    decreases if n < 0 then -n else n, 1
  {
    var s := if n < 0 then "-" + NatToString(-n) else NatToString(n);
    assert forall i :: 0 <= i < |s| ==> IsDigit(s[i]) || s[i] == '-';
    s
  }

  /** The value of a string of decimal digits. */
  function DigitsValue(s: string): nat
    requires AllDigits(s)
  {
    if s == [] then 0 else DigitsValue(s[..|s| - 1]) * 10 + DigitValue(s[|s| - 1])
  }

  /** The strings Integer.parseInt accepts (an optional sign, then at least one digit). */
  predicate IsIntLiteral(s: string)
  {
    if |s| >= 1 && (s[0] == '-' || s[0] == '+') then |s| >= 2 && AllDigits(s[1..])
    else |s| >= 1 && AllDigits(s)
  }

  /** Integer.parseInt on a well-formed literal (32-bit overflow is not modelled). */
  function ParseInt(s: string): int
    requires IsIntLiteral(s)
  {
    if s[0] == '-' then 0 - DigitsValue(s[1..]) as int
    else if s[0] == '+' then DigitsValue(s[1..])
    else DigitsValue(s)
  }

  lemma {:induction false} DigitsOfNat(n: nat)
    ensures DigitsValue(NatToString(n)) == n
  {
    if n >= 10 {
      var s := NatToString(n);
      assert s[..|s| - 1] == NatToString(n / 10);
      DigitsOfNat(n / 10);
    }
  }

  /** Parsing what IntToString wrote gives the number back. */
  lemma IntRoundTrip(n: int)
    ensures IsIntLiteral(IntToString(n)) && ParseInt(IntToString(n)) == n
  {
    if n < 0 {
      var s := IntToString(n);
      assert s[1..] == NatToString(-n);
      DigitsOfNat(-n);
    } else {
      DigitsOfNat(n);
    }
  }

  predicate StartsWith(s: string, prefix: string)
  {
    |prefix| <= |s| && s[..|prefix|] == prefix
  }

  /** A string starts with the first character of every non-empty prefix it starts with. */
  lemma StartsWithFirst(s: string, prefix: string)
    requires StartsWith(s, prefix) && |prefix| > 0
    ensures |s| > 0 && s[0] == prefix[0]
  {
    assert s[..|prefix|][0] == s[0];
  }

  /** String.indexOf(char): the first position of c, or -1. */
  function IndexOf(s: string, c: char): (r: int)
    ensures -1 <= r < |s|
    ensures r == -1 <==> c !in s
    ensures r >= 0 ==> s[r] == c && c !in s[..r]
  {
    if s == [] then -1
    else if s[0] == c then 0
    else
      var r := IndexOf(s[1..], c);
      if r == -1 then -1 else r + 1
  }

  /** s.substring(s.indexOf(c) + 1): drops everything up to the first c, or nothing if there is none. */
  function AfterFirst(s: string, c: char): (r: string)
    ensures c !in s ==> r == s
    ensures c in s ==> s == s[..IndexOf(s, c)] + [c] + r
  {
    s[IndexOf(s, c) + 1..]
  }

  /** All pieces of s between occurrences of c, empty pieces included. */
  function SplitOn(s: string, c: char): (r: seq<string>)
    ensures |r| >= 1
    ensures forall i :: 0 <= i < |r| ==> c !in r[i]
    decreases |s|
  {
    if c !in s then [s]
    else
      var i := IndexOf(s, c);
      [s[..i]] + SplitOn(s[i + 1..], c)
  }

  function DropTrailingEmpty(r: seq<string>): (t: seq<string>)
    ensures |t| <= |r| && t == r[..|t|]
    ensures t != [] ==> t[|t| - 1] != ""
    ensures forall i :: |t| <= i < |r| ==> r[i] == ""
  {
    if r != [] && r[|r| - 1] == "" then DropTrailingEmpty(r[..|r| - 1]) else r
  }

  /** String.split with a one-character pattern: trailing empty pieces are removed, and a string without c is returned whole. */
  function JavaSplit(s: string, c: char): (r: seq<string>)
    ensures forall i :: 0 <= i < |r| ==> c !in r[i]
  {
    if c !in s then [s] else DropTrailingEmpty(SplitOn(s, c))
  }

  /** The pieces joined with c between them (the inverse of SplitOn). */
  function Join(parts: seq<string>, c: char): string
    requires |parts| >= 1
  {
    if |parts| == 1 then parts[0] else parts[0] + [c] + Join(parts[1..], c)
  }

  lemma {:induction false} SplitJoin(parts: seq<string>, c: char)
    requires |parts| >= 1
    requires forall i :: 0 <= i < |parts| ==> c !in parts[i]
    ensures SplitOn(Join(parts, c), c) == parts
  {
    if |parts| > 1 {
      var s := Join(parts, c);
      var p := parts[0];
      assert s == p + [c] + Join(parts[1..], c);
      assert s[|p|] == c;
      assert s[..|p|] == p;
      assert IndexOf(s, c) == |p|;
      assert s[|p| + 1..] == Join(parts[1..], c);
      SplitJoin(parts[1..], c);
    }
  }

  /** String.split undoes joining, as long as the last piece is not empty. */
  lemma JavaSplitJoin(parts: seq<string>, c: char)
    requires |parts| >= 1 && parts[|parts| - 1] != ""
    requires forall i :: 0 <= i < |parts| ==> c !in parts[i]
    ensures JavaSplit(Join(parts, c), c) == parts
  {
    SplitJoin(parts, c);
    if |parts| > 1 {
      assert Join(parts, c)[|parts[0]|] == c;
    }
  }

  /** The first c after a prefix free of c is found right after the prefix. */
  lemma IndexAfterPrefix(prefix: string, c: char, rest: string)
    requires c !in prefix
    ensures IndexOf(prefix + [c] + rest, c) == |prefix|
    ensures AfterFirst(prefix + [c] + rest, c) == rest
  {
    var s := prefix + [c] + rest;
    assert s[..|prefix|] == prefix;
    assert s[|prefix|] == c;
    assert s[|prefix| + 1..] == rest;
  }

  /** Splitting at a separator that follows a prefix free of it peels the prefix off as the first piece. */
  lemma SplitAfterPrefix(prefix: string, c: char, rest: string)
    requires c !in prefix
    ensures SplitOn(prefix + [c] + rest, c) == [prefix] + SplitOn(rest, c)
  {
    var s := prefix + [c] + rest;
    IndexAfterPrefix(prefix, c, rest);
    assert s[..|prefix|] == prefix;
    assert s[|prefix| + 1..] == rest;
  }

  /** A piece that is not empty survives the removal of trailing empty pieces. */
  lemma DropEmptyLast(r: seq<string>)
    ensures DropTrailingEmpty(r + [""]) == DropTrailingEmpty(r)
  {
    assert (r + [""])[..|r|] == r;
  }

  lemma DropNothing(r: seq<string>)
    requires r != [] && r[|r| - 1] != ""
    ensures DropTrailingEmpty(r) == r
  {
  }

  lemma DropKeeps(r: seq<string>, i: nat)
    requires i < |r| && r[i] != ""
    ensures i < |DropTrailingEmpty(r)| && DropTrailingEmpty(r)[i] == r[i]
  {
  }
}
