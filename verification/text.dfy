/**
  String helpers shared by the nodes and the page: ASCII decimal numerals
  (Python's `int(...)` and `str(...)` on them), substring search (Python's
  `in` on strings), and the two ways a list of lines is turned into text.
 */
module Text {

  predicate IsDigit(c: char) {
    '0' <= c <= '9'
  }

  predicate AllDigits(s: string) {
    forall i :: 0 <= i < |s| ==> IsDigit(s[i])
  }

  function DigitChar(d: nat): (c: char)
    requires d < 10
    ensures IsDigit(c)
    ensures c as int - '0' as int == d
  {
    ('0' as int + d) as char
  }

  function DigitValue(c: char): (d: nat)
    requires IsDigit(c)
    ensures d < 10 && DigitChar(d) == c
  {
    c as int - '0' as int
  }

  /** `str(n)` for a natural number: the shortest decimal numeral. */
  function NatToString(n: nat): (s: string)
    ensures |s| >= 1 && AllDigits(s)
    ensures s[0] == '0' ==> n == 0 && s == "0"
  {
    if n < 10 then [DigitChar(n)] else NatToString(n / 10) + [DigitChar(n % 10)]
  }

  /** `str(n)` for any integer: a minus sign in front of negative numbers. */
  function IntToString(n: int): (s: string)
    ensures n >= 0 ==> |s| >= 1 && AllDigits(s) && DigitsValue(s) == n && (s[0] == '0' ==> s == "0")
    ensures n < 0 ==> |s| >= 2 && s[0] == '-' && s[1] != '0'
                      && AllDigits(s[1..]) && DigitsValue(s[1..]) == -n
  {
    if n >= 0 then
      ParsePrinted(n);
      NatToString(n)
    else
      var t := NatToString(-n);
      ParsePrinted(-n);
      assert ("-" + t)[1..] == t;
      "-" + t
  }

  /** `int(s)` for a non-empty run of ASCII digits (the empty run reads as 0). */
  function DigitsValue(s: string): (v: nat)
    requires AllDigits(s)
    ensures v == 0 <==> forall i :: 0 <= i < |s| ==> s[i] == '0'
  {
    if |s| == 0 then 0
    else
      var init := s[..|s| - 1];
      assert forall i :: 0 <= i < |init| ==> init[i] == s[i];
      DigitsValue(init) * 10 + DigitValue(s[|s| - 1])
  }

  /** Reading back a printed number gives the number. */
  lemma {:induction false} ParsePrinted(n: nat)
    ensures DigitsValue(NatToString(n)) == n
  {
    if n >= 10 {
      var s := NatToString(n / 10);
      var t := NatToString(n);
      assert t == s + [DigitChar(n % 10)];
      assert t[..|t| - 1] == s;
      ParsePrinted(n / 10);
    }
  }

  /** A leading zero does not change the value of a numeral. */
  lemma {:induction false} LeadingZeroIgnored(s: string)
    requires AllDigits(s)
    ensures AllDigits("0" + s)
    ensures DigitsValue("0" + s) == DigitsValue(s)
  {
    var t := "0" + s;
    if |s| > 0 {
      assert t[..|t| - 1] == "0" + s[..|s| - 1];
      assert t[|t| - 1] == s[|s| - 1];
      LeadingZeroIgnored(s[..|s| - 1]);
    } else {
      assert t[..|t| - 1] == "";
    }
  }

  /** `m` zero characters. */
  function Zeros(m: nat): (z: string)
    ensures |z| == m && AllDigits(z)
  {
    if m == 0 then "" else "0" + Zeros(m - 1)
  }

  /** Any number of leading zeros is dropped by reading and re-printing a numeral. */
  lemma {:induction false} ZeroPaddedReprint(m: nat, n: nat)
    ensures AllDigits(Zeros(m) + NatToString(n))
    ensures NatToString(DigitsValue(Zeros(m) + NatToString(n))) == NatToString(n)
  {
    if m == 0 {
      assert Zeros(m) + NatToString(n) == NatToString(n);
      ParsePrinted(n);
    } else {
      ZeroPaddedReprint(m - 1, n);
      var rest := Zeros(m - 1) + NatToString(n);
      assert Zeros(m) + NatToString(n) == "0" + rest;
      LeadingZeroIgnored(rest);
    }
  }

  /** `pat` sits in `s` starting at index `i`. */
  predicate OccursAt(pat: string, s: string, i: int) {
    0 <= i && i + |pat| <= |s| && s[i..i + |pat|] == pat
  }

  /** Python's `pat in s` on strings. */
  function Contains(s: string, pat: string): (b: bool)
    ensures b <==> exists i :: OccursAt(pat, s, i)
    decreases |s|
  {
    if |s| < |pat| then
      false
    else if s[..|pat|] == pat then
      assert OccursAt(pat, s, 0);
      true
    else
      var b := Contains(s[1..], pat);
      assert b ==> exists i :: OccursAt(pat, s, i) by {
        if b {
          var i :| OccursAt(pat, s[1..], i);
          assert s[i + 1..i + 1 + |pat|] == s[1..][i..i + |pat|];
          assert OccursAt(pat, s, i + 1);
        }
      }
      assert (exists i :: OccursAt(pat, s, i)) ==> b by {
        if i :| OccursAt(pat, s, i) {
          assert i != 0;
          assert s[1..][i - 1..i - 1 + |pat|] == s[i..i + |pat|];
          assert OccursAt(pat, s[1..], i - 1);
        }
      }
      b
  }

  /** The summed lengths of `parts`. */
  function TotalLength(parts: seq<string>): nat {
    if |parts| == 0 then 0 else |parts[0]| + TotalLength(parts[1..])
  }

  /** Python's `sep.join(parts)`: the parts in order, one separator between
      each two of them and nothing else. */
  function Join(parts: seq<string>, sep: string): (r: string)
    ensures |parts| > 0 ==> |r| == TotalLength(parts) + (|parts| - 1) * |sep|
    ensures |parts| > 0 ==> r[..|parts[0]|] == parts[0]
  {
    if |parts| == 0 then ""
    else if |parts| == 1 then
      assert parts[1..] == [];
      parts[0]
    else
      var rest := Join(parts[1..], sep);
      assert (parts[0] + sep + rest)[..|parts[0]|] == parts[0];
      parts[0] + sep + rest
  }

  /** Every part followed by a line break, in order. */
  function Lines(parts: seq<string>): string {
    if |parts| == 0 then "" else parts[0] + "\n" + Lines(parts[1..])
  }

  /** Terminating every line is joining them and adding one final line break. */
  lemma {:induction false} LinesIsJoinPlusBreak(parts: seq<string>)
    requires |parts| > 0
    ensures Lines(parts) == Join(parts, "\n") + "\n"
  {
    if |parts| > 1 {
      LinesIsJoinPlusBreak(parts[1..]);
    } else {
      assert parts[1..] == [];
    }
  }

  /** Terminating lines distributes over concatenation of the line lists. */
  lemma {:induction false} LinesAppend(a: seq<string>, b: seq<string>)
    ensures Lines(a + b) == Lines(a) + Lines(b)
  {
    if |a| == 0 {
      assert a + b == b;
    } else {
      assert (a + b)[1..] == a[1..] + b;
      LinesAppend(a[1..], b);
    }
  }
}
