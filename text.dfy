/** String helpers used by the flow-tree code: `strings.Split(s, sep)[i]` for the
    first two pieces, and the `%d` rendering of a non-negative counter. */
module Text {

  /** `strings.Split(s, string(c))[0]`: everything before the first `c`, or all of `s`. */
  function UpTo(s: string, c: char): (r: string)
    ensures |r| <= |s| && r == s[..|r|]
    ensures c !in r
    ensures |r| < |s| ==> s[|r|] == c
    ensures c !in s ==> r == s
  {
    if s == [] then []
    else if s[0] == c then []
    else [s[0]] + UpTo(s[1..], c)
  }

  /** `strings.Split(s, string(c))[1]`: the piece between the first and second `c`.
      The source indexes `[1]` unconditionally, so `c` must occur in `s`. */
  function SecondPiece(s: string, c: char): (r: string)
    requires c in s
    ensures c !in r
    ensures |UpTo(s, c)| + 1 + |r| <= |s|
    ensures r == s[|UpTo(s, c)| + 1..][..|r|]
    ensures var rest := s[|UpTo(s, c)| + 1..]; |r| < |rest| ==> rest[|r|] == c
  {
    UpTo(s[|UpTo(s, c)| + 1..], c)
  }

  function Digit(d: nat): (ch: char)
    requires d < 10
    ensures '0' <= ch <= '9'
  {
    "0123456789"[d]
  }

  function DigitValue(ch: char): nat
    requires '0' <= ch <= '9'
  {
    (ch - '0') as nat
  }

  predicate AllDigits(s: string)
  {
    forall i :: 0 <= i < |s| ==> '0' <= s[i] <= '9'
  }

  /** `fmt.Sprintf("%d", n)` for a non-negative `n`. */
  function NatToString(n: nat): (s: string)
    ensures |s| >= 1 && AllDigits(s)
    decreases n
  {
    if n < 10 then [Digit(n)] else NatToString(n / 10) + [Digit(n % 10)]
  }

  /** Reads a decimal digit string back as a number. */
  function DecimalValue(s: string): nat
    requires AllDigits(s)
  {
    if s == [] then 0 else DecimalValue(s[..|s| - 1]) * 10 + DigitValue(s[|s| - 1])
  }

  lemma {:induction false} DecimalRoundTrip(n: nat)
    ensures DecimalValue(NatToString(n)) == n
    decreases n
  {
    if n >= 10 {
      var s := NatToString(n);
      assert s[..|s| - 1] == NatToString(n / 10);
      DecimalRoundTrip(n / 10);
    }
  }

  /** Distinct counters render to distinct strings. */
  lemma NatToStringInjective(a: nat, b: nat)
    requires a != b
    ensures NatToString(a) != NatToString(b)
  {
    DecimalRoundTrip(a);
    DecimalRoundTrip(b);
  }

  /** `label + "_" + NatToString(p)` names are told apart by their counter:
      whatever the labels, two different counters give two different names. */
  lemma {:induction false} SuffixedNamesDiffer(l1: string, l2: string, p1: nat, p2: nat)
    requires p1 != p2
    ensures l1 + "_" + NatToString(p1) != l2 + "_" + NatToString(p2)
  {
    var s1, s2 := NatToString(p1), NatToString(p2);
    NatToStringInjective(p1, p2);
    var n1, n2 := l1 + "_" + s1, l2 + "_" + s2;
    if |s1| == |s2| {
      assert s1 == n1[|n1| - |s1|..] && s2 == n2[|n2| - |s2|..];
    } else if |s1| < |s2| {
      assert n1[|n1| - |s1| - 1] == '_' && n2[|n2| - |s1| - 1] == s2[|s2| - |s1| - 1];
    } else {
      assert n2[|n2| - |s2| - 1] == '_' && n1[|n1| - |s2| - 1] == s1[|s1| - |s2| - 1];
    }
  }
}
