/**
 * The Go string helpers the adapter relies on: strings.TrimLeft with a cut set,
 * strings.TrimSpace, strings.ToUpper (on the ASCII range), and the formatting
 * verbs %d and %q as they are used in the decoder's messages.
 */
module Text {

  /** The characters for which Go's unicode.IsSpace holds. */
  const WhiteSpace: set<char> := {
    '\t', '\n', '\U{B}', '\U{C}', '\r', ' ', '\U{85}', '\U{A0}', '\U{1680}',
    '\U{2000}', '\U{2001}', '\U{2002}', '\U{2003}', '\U{2004}', '\U{2005}',
    '\U{2006}', '\U{2007}', '\U{2008}', '\U{2009}', '\U{200A}',
    '\U{2028}', '\U{2029}', '\U{202F}', '\U{205F}', '\U{3000}'
  }

  /** strings.TrimLeft: drops the longest prefix made of characters of `cutset`. */
  function TrimLeft(s: string, cutset: set<char>): (r: string)
    ensures |r| <= |s|
    decreases |s|
  {
    if s != [] && s[0] in cutset then TrimLeft(s[1..], cutset) else s
  }

  /** strings.TrimRight: drops the longest suffix made of characters of `cutset`. */
  function TrimRight(s: string, cutset: set<char>): (r: string)
    ensures |r| <= |s|
    decreases |s|
  {
    if s != [] && s[|s| - 1] in cutset then TrimRight(s[..|s| - 1], cutset) else s
  }

  /** strings.TrimSpace: drops leading and trailing white space. */
  function TrimSpace(s: string): (r: string)
  {
    TrimRight(TrimLeft(s, WhiteSpace), WhiteSpace)
  }

  /**
   * TrimLeft keeps a suffix of the text; everything it drops is in the cut set,
   * and what it keeps does not start with a character of the cut set.
   */
  lemma {:induction false} TrimLeftDropsCutPrefix(s: string, cutset: set<char>)
    ensures var r := TrimLeft(s, cutset);
      && r == s[|s| - |r|..]
      && (forall i :: 0 <= i < |s| - |r| ==> s[i] in cutset)
      && (r == [] || r[0] !in cutset)
    decreases |s|
  {
    if s != [] && s[0] in cutset {
      TrimLeftDropsCutPrefix(s[1..], cutset);
      var r := TrimLeft(s, cutset);
      forall i | 1 <= i < |s| - |r|
        ensures s[i] in cutset
      {
        assert s[i] == s[1..][i - 1];
      }
    }
  }

  /**
   * TrimRight keeps a prefix of the text; everything it drops is in the cut set,
   * and what it keeps does not end with a character of the cut set.
   */
  lemma {:induction false} TrimRightDropsCutSuffix(s: string, cutset: set<char>)
    ensures var r := TrimRight(s, cutset);
      && r == s[..|r|]
      && (forall i :: |r| <= i < |s| ==> s[i] in cutset)
      && (r == [] || r[|r| - 1] !in cutset)
    decreases |s|
  {
    if s != [] && s[|s| - 1] in cutset {
      TrimRightDropsCutSuffix(s[..|s| - 1], cutset);
      var r := TrimRight(s, cutset);
      forall i | |r| <= i < |s| - 1
        ensures s[i] in cutset
      {
        assert s[i] == s[..|s| - 1][i];
      }
    }
  }

  /** The trimmed text neither starts nor ends with white space. */
  lemma TrimSpaceEnds(s: string)
    ensures var r := TrimSpace(s); r == [] || (r[0] !in WhiteSpace && r[|r| - 1] !in WhiteSpace)
  {
    var l := TrimLeft(s, WhiteSpace);
    TrimLeftDropsCutPrefix(s, WhiteSpace);
    TrimRightDropsCutSuffix(l, WhiteSpace);
  }

  /** When the first character outside `cutset` is at `k`, TrimLeft keeps exactly s[k..]. */
  lemma TrimLeftStopsAt(s: string, cutset: set<char>, k: nat)
    requires k <= |s| && (k < |s| ==> s[k] !in cutset)
    requires forall i :: 0 <= i < k ==> s[i] in cutset
    ensures TrimLeft(s, cutset) == s[k..]
  {
    TrimLeftDropsCutPrefix(s, cutset);
  }

  /** When the last character outside `cutset` is at `k - 1`, TrimRight keeps exactly s[..k]. */
  lemma TrimRightStopsAt(s: string, cutset: set<char>, k: nat)
    requires k <= |s| && (0 < k ==> s[k - 1] !in cutset)
    requires forall i :: k <= i < |s| ==> s[i] in cutset
    ensures TrimRight(s, cutset) == s[..k]
  {
    TrimRightDropsCutSuffix(s, cutset);
  }

  /** The text holds a single '1' at `k` and nothing else but white space. */
  ghost predicate PaddedOneAt(s: string, k: int)
  {
    0 <= k < |s| && s[k] == '1' && forall i :: 0 <= i < |s| && i != k ==> s[i] in WhiteSpace
  }

  /** Trimmed text equal to "1" comes from a single '1' padded with white space. */
  lemma TrimSpaceOneIsPadded(s: string)
    requires TrimSpace(s) == "1"
    ensures PaddedOneAt(s, |s| - |TrimLeft(s, WhiteSpace)|)
  {
    var l := TrimLeft(s, WhiteSpace);
    var a := |s| - |l|;
    TrimLeftDropsCutPrefix(s, WhiteSpace);
    TrimRightDropsCutSuffix(l, WhiteSpace);
    assert TrimRight(l, WhiteSpace) == l[..1];
    assert s[a] == l[0];
    forall i | a < i < |s|
      ensures s[i] in WhiteSpace
    {
      assert s[i] == l[i - a];
    }
  }

  /** A single '1' padded with white space trims to "1". */
  lemma PaddedOneTrimsToOne(s: string, k: int)
    requires PaddedOneAt(s, k)
    ensures TrimSpace(s) == "1"
  {
    assert '1' !in WhiteSpace;
    TrimLeftStopsAt(s, WhiteSpace, k);
    var l := s[k..];
    forall i | 1 <= i < |l|
      ensures l[i] in WhiteSpace
    {
      assert l[i] == s[k + i];
    }
    TrimRightStopsAt(l, WhiteSpace, 1);
  }

  /**
   * The trimmed text is exactly "1" if and only if the text holds a single '1'
   * and nothing else but white space.
   */
  lemma TrimSpaceIsOne(s: string)
    ensures TrimSpace(s) == "1" <==> exists k :: PaddedOneAt(s, k)
  {
    if TrimSpace(s) == "1" {
      TrimSpaceOneIsPadded(s);
    }
    if exists k :: PaddedOneAt(s, k) {
      var k :| PaddedOneAt(s, k);
      PaddedOneTrimsToOne(s, k);
    }
  }

  /** strings.ToUpper restricted to the ASCII letters; every other character is kept. */
  function ToUpperAscii(s: string): (r: string)
    ensures |r| == |s|
    ensures forall i :: 0 <= i < |s| ==> ('a' <= s[i] <= 'z' ==> r[i] as int == s[i] as int - 32)
    ensures forall i :: 0 <= i < |s| ==> (!('a' <= s[i] <= 'z') ==> r[i] == s[i])
  {
    seq(|s|, i requires 0 <= i < |s| =>
      if 'a' <= s[i] <= 'z' then (s[i] as int - 32) as char else s[i])
  }

  /** The decimal digit of a value below ten. */
  function Digit(d: nat): (c: char)
    requires d < 10
    ensures '0' <= c <= '9' && c as int - '0' as int == d
  {
    ('0' as int + d) as char
  }

  /** Go's %d of a non-negative integer: its decimal digits, without leading zeros. */
  function NatToDecimal(n: nat): (s: string)
    ensures |s| >= 1
    ensures forall i :: 0 <= i < |s| ==> '0' <= s[i] <= '9'
    ensures s[0] == '0' ==> n == 0
    decreases n
  {
    if n < 10 then [Digit(n)] else NatToDecimal(n / 10) + [Digit(n % 10)]
  }

  /** The number a string of decimal digits denotes. */
  function DecimalValue(s: string): (n: nat)
    requires forall i :: 0 <= i < |s| ==> '0' <= s[i] <= '9'
  {
    if s == [] then 0
    else DecimalValue(s[..|s| - 1]) * 10 + (s[|s| - 1] as int - '0' as int)
  }

  /** Reading back the digits %d writes gives the number printed. */
  lemma {:induction false} DecimalRoundTrip(n: nat)
    ensures DecimalValue(NatToDecimal(n)) == n
    decreases n
  {
    if n >= 10 {
      DecimalRoundTrip(n / 10);
      var s := NatToDecimal(n);
      assert s[..|s| - 1] == NatToDecimal(n / 10);
    }
  }

  /** Go's %q of a name made of letters and digits: the name between double quotes. */
  function Quote(s: string): (r: string)
    ensures |r| == |s| + 2 && r[0] == '"' && r[|r| - 1] == '"' && r[1..|r| - 1] == s
  {
    "\"" + s + "\""
  }
}
