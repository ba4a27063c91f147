/**
  The string helpers the program relies on from the .NET runtime: the decimal
  rendering of an integer inside an interpolated string, and Path.GetFileName.
 */
module Strings {

  /** The decimal digit for d. */
  function Digit(d: nat): (c: char)
    requires d < 10
    ensures '0' <= c <= '9'
  {
    (('0' as int) + d) as char
  }

  /** The numeric value of a decimal digit. */
  function DigitValue(c: char): (v: nat)
    requires '0' <= c <= '9'
  {
    (c as int) - ('0' as int)
  }

  /** The value a string of decimal digits denotes. */
  function ValueOf(s: string): (v: nat)
    requires forall k :: 0 <= k < |s| ==> '0' <= s[k] <= '9'
  {
    if s == [] then 0 else 10 * ValueOf(s[..|s| - 1]) + DigitValue(s[|s| - 1])
  }

  /** The shortest decimal form of n: digits only, no leading zero, denoting n. */
  function NatToString(n: nat): (s: string)
    ensures |s| > 0
    ensures forall k :: 0 <= k < |s| ==> '0' <= s[k] <= '9'
    ensures |s| > 1 ==> s[0] != '0'
    ensures ValueOf(s) == n
    decreases n
  {
    if n < 10 then [Digit(n)]
    else
      var s := NatToString(n / 10) + [Digit(n % 10)];
      assert s[..|s| - 1] == NatToString(n / 10);
      s
  }

  /** How Int32.ToString() writes n: a minus sign for negative values, then the digits of |n|. */
  function IntToString(n: int): (s: string) {
    if n < 0 then "-" + NatToString(-n) else NatToString(n)
  }

  /**
    The numeral starts with '-' exactly for negative n; what follows the sign is a
    nonempty run of decimal digits, without a leading zero, that denotes |n|.
   */
  lemma IntToStringShape(n: int)
    ensures var s := IntToString(n);
      var digits := if n < 0 then s[1..] else s;
      |s| > 0 && (s[0] == '-' <==> n < 0) &&
      |digits| > 0 && (|digits| > 1 ==> digits[0] != '0') &&
      (forall k :: 0 <= k < |digits| ==> '0' <= digits[k] <= '9') &&
      ValueOf(digits) == if n < 0 then -n else n
  {
    if n < 0 {
      assert IntToString(n)[1..] == NatToString(-n);
    }
  }

  /**
    Path.GetFileName: the part of path after its last separator, or the whole path
    when it has none. Which characters separate directories depends on the platform,
    so the set is a parameter.
   */
  function FileName(path: string, separators: set<char>): (name: string)
    ensures |name| <= |path| && name == path[|path| - |name|..]
    ensures forall k :: 0 <= k < |name| ==> name[k] !in separators
    ensures |name| < |path| ==> path[|path| - |name| - 1] in separators
    decreases |path|
  {
    if path == [] then []
    else if path[|path| - 1] in separators then []
    else FileName(path[..|path| - 1], separators) + [path[|path| - 1]]
  }

  /** Distinct integers print differently, so an "ID: n" line names exactly one id. */
  lemma IntToStringInjective(a: int, b: int)
    requires IntToString(a) == IntToString(b)
    ensures a == b
  {
    IntToStringShape(a);
    IntToStringShape(b);
    if a < 0 {
      assert IntToString(a)[1..] == IntToString(b)[1..];
    }
    assert ValueOf(if a < 0 then IntToString(a)[1..] else IntToString(a)) ==
           ValueOf(if b < 0 then IntToString(b)[1..] else IntToString(b));
  }

  /** The converse: a name without separators after a directory prefix is what FileName returns. */
  lemma {:induction false} FileNameOfJoin(dir: string, name: string, separators: set<char>)
    requires forall k :: 0 <= k < |name| ==> name[k] !in separators
    requires dir == [] || dir[|dir| - 1] in separators
    ensures FileName(dir + name, separators) == name
    decreases |name|
  {
    var path := dir + name;
    if name == [] {
      assert path == dir;
    } else {
      var init := name[..|name| - 1];
      var last := name[|name| - 1];
      assert path[|path| - 1] == last;
      assert path[..|path| - 1] == dir + init;
      assert FileName(path, separators) == FileName(dir + init, separators) + [last];
      FileNameOfJoin(dir, init, separators);
      assert init + [last] == name;
    }
  }
}
