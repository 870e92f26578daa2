/** Text helpers that several components share. */
module Texts {

  /** `n` in decimal digits. */
  function Decimal(n: nat): (s: string)
    ensures |s| > 0
    ensures forall c | c in s :: '0' <= c <= '9'
  {
    var digit := ['0' + (n % 10) as char];
    if n < 10 then digit else Decimal(n / 10) + digit
  }

  lemma {:induction false} DecimalInjective(m: nat, n: nat)
    requires Decimal(m) == Decimal(n)
    ensures m == n
  {
    var s := Decimal(m);
    assert s[|s| - 1] == '0' + (m % 10) as char == '0' + (n % 10) as char;
    assert m % 10 == n % 10;
    if m < 10 && n < 10 {
    } else {
      assert |Decimal(m / 10)| > 0 && |Decimal(n / 10)| > 0;
      assert m >= 10 && n >= 10;
      assert s[..|s| - 1] == Decimal(m / 10) == Decimal(n / 10);
      DecimalInjective(m / 10, n / 10);
    }
  }

  predicate Blank(c: char) { c == ' ' || '\t' <= c <= '\r' }

  function TrimEnd(s: string): (r: string)
    ensures r <= s
    ensures r == [] || !Blank(r[|r| - 1])
  {
    if s != [] && Blank(s[|s| - 1]) then TrimEnd(s[..|s| - 1]) else s
  }

  /** At most `limit` characters; a shortened text ends with an ellipsis. */
  function Truncate(s: string, limit: nat): (r: string)
    requires limit > 0
    ensures |r| <= limit
    ensures |s| <= limit ==> r == s
    ensures |s| > limit ==> r != [] && r[..|r| - 1] <= s && r[|r| - 1] == '\U{2026}'
  {
    if |s| <= limit then s
    else
      var kept := TrimEnd(s[..limit - 1]) + ['\U{2026}'];
      assert kept[..|kept| - 1] == TrimEnd(s[..limit - 1]);
      kept
  }

  /** The lines in order, with a line break between neighbours. */
  function JoinLines(lines: seq<string>): string {
    if lines == [] then ""
    else if |lines| == 1 then lines[0]
    else JoinLines(lines[..|lines| - 1]) + "\n" + lines[|lines| - 1]
  }
}
