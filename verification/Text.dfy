/** The string operations the services lean on. */
module Text {

  /** The white space String.prototype.trim removes: WhiteSpace and LineTerminator of
      sections 12.2 and 12.3 of ECMA-262. */
  predicate IsSpace(c: char) {
    || '\t' <= c <= '\r' || c == ' ' || c == '\U{A0}' || c == '\U{1680}'
    || '\U{2000}' <= c <= '\U{200A}' || c == '\U{2028}' || c == '\U{2029}' || c == '\U{202F}'
    || c == '\U{205F}' || c == '\U{3000}' || c == '\U{FEFF}'
  }

  predicate IsTrimmed(s: string) {
    |s| > 0 ==> !IsSpace(s[0]) && !IsSpace(s[|s| - 1])
  }

  function TrimEnd(s: string): (r: string)
    ensures r <= s && (|r| > 0 ==> !IsSpace(r[|r| - 1]))
    ensures forall i :: |r| <= i < |s| ==> IsSpace(s[i])
  {
    if |s| > 0 && IsSpace(s[|s| - 1]) then TrimEnd(s[..|s| - 1]) else s
  }

  function Trim(s: string): (r: string)
    ensures IsTrimmed(r)
    ensures r == "" <==> forall i :: 0 <= i < |s| ==> IsSpace(s[i])
    ensures IsTrimmed(s) ==> r == s
  {
    if |s| > 0 && IsSpace(s[0]) then Trim(s[1..]) else TrimEnd(s)
  }

  function LowerChar(c: char): char {
    if 'A' <= c <= 'Z' then c - 'A' + 'a' else c
  }

  function Lower(s: string): (r: string)
    ensures |r| == |s| && forall i :: 0 <= i < |s| ==> r[i] == LowerChar(s[i])
  {
    seq(|s|, i requires 0 <= i < |s| => LowerChar(s[i]))
  }

  /** Every white-space character removed. */
  function Squeeze(s: string): string {
    if |s| == 0 then ""
    else Squeeze(s[..|s| - 1]) + if IsSpace(s[|s| - 1]) then "" else [s[|s| - 1]]
  }

  ghost predicate NoSpaces(s: string) {
    forall i :: 0 <= i < |s| ==> !IsSpace(s[i])
  }

  lemma {:induction false} WordsAreLeftAlone(s: string)
    requires NoSpaces(s)
    ensures Squeeze(s) == s && Trim(s) == s
  {
    if |s| > 0 {
      var front := s[..|s| - 1];
      assert NoSpaces(front) by {
        forall i | 0 <= i < |front|
          ensures !IsSpace(front[i])
        {
          assert front[i] == s[i];
        }
      }
      WordsAreLeftAlone(front);
      assert s == front + [s[|s| - 1]];
    }
  }

  /** What is left of s is its part from i to j, with white space alone on either side. */
  ghost predicate CutFrom(r: string, s: string, i: nat, j: nat) {
    && i <= j <= |s| && r == s[i..j]
    && (forall k :: 0 <= k < i ==> IsSpace(s[k])) && (forall k :: j <= k < |s| ==> IsSpace(s[k]))
  }

  lemma CutShifts(r: string, s: string, i: nat, j: nat)
    requires |s| > 0 && IsSpace(s[0]) && CutFrom(r, s[1..], i, j)
    ensures CutFrom(r, s, i + 1, j + 1)
  {
    assert s[1..][i..j] == s[i + 1..j + 1];
    forall k | 0 <= k < i + 1
      ensures IsSpace(s[k])
    {
      assert k > 0 ==> s[k] == s[1..][k - 1];
    }
    forall k | j + 1 <= k < |s|
      ensures IsSpace(s[k])
    {
      assert s[k] == s[1..][k - 1];
    }
  }

  /** Trimming takes white space from the two ends and nothing else. */
  lemma {:induction false} TrimCutsEnds(s: string) returns (i: nat, j: nat)
    ensures CutFrom(Trim(s), s, i, j)
  {
    if |s| > 0 && IsSpace(s[0]) {
      i, j := TrimCutsEnds(s[1..]);
      CutShifts(Trim(s[1..]), s, i, j);
      i, j := i + 1, j + 1;
    } else {
      i, j := 0, |TrimEnd(s)|;
    }
  }

  /** Squeezing takes out the white space and keeps every other character, in order. */
  lemma {:induction false} SqueezeKeepsOthers(s: string, t: string)
    ensures Squeeze(s + t) == Squeeze(s) + Squeeze(t)
    ensures NoSpaces(Squeeze(t))
    ensures |t| == 1 ==> Squeeze(t) == if IsSpace(t[0]) then "" else t
    decreases |t|
  {
    if |t| > 0 {
      var front := t[..|t| - 1];
      SqueezeKeepsOthers(s, front);
      assert (s + t)[..|s + t| - 1] == s + front;
    } else {
      assert s + t == s;
    }
  }

  /** The space, the line ends and the no-break space are white space; digits and letters are not. */
  lemma WhiteSpace(c: char)
    ensures c == ' ' || c == '\t' || c == '\n' || c == '\r' || c == '\U{A0}' || c == '\U{FEFF}' ==> IsSpace(c)
    ensures '!' <= c <= '~' ==> !IsSpace(c)
  {
  }

  lemma LowerLetters(c: char)
    ensures 'A' <= c <= 'Z' ==> 'a' <= LowerChar(c) <= 'z' && LowerChar(c) as int - 'a' as int == c as int - 'A' as int
    ensures !('A' <= c <= 'Z') ==> LowerChar(c) == c
  {
  }

  // ---------------------------------------------------------------- decimal integers

  function Digit(n: nat): char
    requires n < 10
  {
    '0' + n as char
  }

  function NatToString(n: nat): (s: string)
    ensures |s| > 0 && forall i :: 0 <= i < |s| ==> '0' <= s[i] <= '9'
  {
    if n < 10 then [Digit(n)] else NatToString(n / 10) + [Digit(n % 10)]
  }

  function IntToString(n: int): string {
    if n < 0 then "-" + NatToString(-n) else NatToString(n)
  }

  predicate IsDigits(s: string) {
    |s| > 0 && forall i :: 0 <= i < |s| ==> '0' <= s[i] <= '9'
  }

  function DigitsValue(s: string): nat
    requires IsDigits(s)
  {
    var last := (s[|s| - 1] - '0') as nat;
    if |s| == 1 then last else 10 * DigitsValue(s[..|s| - 1]) + last
  }

  predicate IsInteger(s: string) {
    IsDigits(s) || (|s| > 1 && s[0] == '-' && IsDigits(s[1..]))
  }

  function IntegerValue(s: string): int
    requires IsInteger(s)
  {
    if IsDigits(s) then DigitsValue(s) else 0 - DigitsValue(s[1..])
  }

  lemma {:induction false} NatRoundTrip(n: nat)
    ensures IsDigits(NatToString(n)) && DigitsValue(NatToString(n)) == n
  {
    if n >= 10 {
      NatRoundTrip(n / 10);
      var s := NatToString(n);
      assert s[..|s| - 1] == NatToString(n / 10);
    }
  }

  lemma DigitsAreTrimmed(s: string)
    requires IsDigits(s)
    ensures IsTrimmed(s) && IsTrimmed("-" + s)
  {
  }

  /** An integer survives being written and read back, and what is written carries no space. */
  lemma IntRoundTrip(n: int)
    ensures var s := IntToString(n);
            IsInteger(s) && IntegerValue(s) == n && IsTrimmed(s) && s != ""
  {
    var s := IntToString(n);
    if n < 0 {
      NatRoundTrip(-n);
      DigitsAreTrimmed(NatToString(-n));
      assert s[1..] == NatToString(-n);
    } else {
      NatRoundTrip(n);
      DigitsAreTrimmed(s);
    }
  }
}
