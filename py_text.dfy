// The pieces of Python's text handling that the two VSOP87 generator scripts rely on: str.split()
// and str.strip() with no argument, int() on a token, "%d" formatting, list indexing with negative
// indices, and the exceptions these raise.

module PyText {

  /** The exceptions the scripts can raise on malformed input. */
  datatype PyError = IndexError | ValueError | TypeError

  /** A value, or the exception that ended the script. */
  datatype Py<T> = Value(value: T) | Raised(error: PyError)

  datatype Option<T> = None | Some(value: T)

  /** str.isspace() for one character: the ASCII and Unicode whitespace Python splits on. */
  predicate IsSpace(c: char)
  {
    c == ' ' || ('\t' <= c <= '\r') || ('\U{001C}' <= c <= '\U{001F}') || c == '\U{0085}' || c == '\U{00A0}'
    || c == '\U{1680}' || ('\U{2000}' <= c <= '\U{200A}') || c == '\U{2028}' || c == '\U{2029}'
    || c == '\U{202F}' || c == '\U{205F}' || c == '\U{3000}'
  }

  /** The length of the run of non-space characters that s starts with. */
  function TokenLength(s: string): (n: nat)
    ensures n <= |s|
    ensures forall i :: 0 <= i < n ==> !IsSpace(s[i])
    ensures n < |s| ==> IsSpace(s[n])
  {
    if |s| == 0 || IsSpace(s[0]) then 0 else 1 + TokenLength(s[1..])
  }

  /** str.split(): the maximal runs of non-space characters, in order. */
  function Split(s: string): (v: seq<string>)
    decreases |s|
  {
    if |s| == 0 then []
    else if IsSpace(s[0]) then Split(s[1..])
    else
      var n := TokenLength(s);
      [s[..n]] + Split(s[n..])
  }

  /** Every token of split() is non-empty and holds no whitespace. */
  lemma {:induction false} SplitTokens(s: string)
    ensures forall k :: 0 <= k < |Split(s)| ==> |Split(s)[k]| > 0
    ensures forall k, i :: 0 <= k < |Split(s)| && 0 <= i < |Split(s)[k]| ==> !IsSpace(Split(s)[k][i])
    decreases |s|
  {
    if |s| > 0 {
      if IsSpace(s[0]) {
        SplitTokens(s[1..]);
      } else {
        var n := TokenLength(s);
        SplitTokens(s[n..]);
        assert Split(s) == [s[..n]] + Split(s[n..]);
        forall k, i | 0 <= k < |Split(s)| && 0 <= i < |Split(s)[k]|
          ensures !IsSpace(Split(s)[k][i])
        {
          if k > 0 {
            assert Split(s)[k] == Split(s[n..])[k - 1];
          }
        }
      }
    }
  }

  /** A line of whitespace only splits into nothing: the `v == []` test of the scripts. */
  lemma {:induction false} SplitBlank(s: string)
    requires forall i :: 0 <= i < |s| ==> IsSpace(s[i])
    ensures Split(s) == []
    decreases |s|
  {
    if |s| > 0 {
      SplitBlank(s[1..]);
    }
  }

  /** The number of leading whitespace characters of s. */
  function LeadingSpace(s: string): (n: nat)
    ensures n <= |s|
    ensures forall i :: 0 <= i < n ==> IsSpace(s[i])
    ensures n < |s| ==> !IsSpace(s[n])
  {
    if |s| == 0 || !IsSpace(s[0]) then 0 else 1 + LeadingSpace(s[1..])
  }

  /** The number of trailing whitespace characters of s. */
  function TrailingSpace(s: string): (n: nat)
    ensures n <= |s|
    ensures forall i :: |s| - n <= i < |s| ==> IsSpace(s[i])
    ensures n < |s| ==> !IsSpace(s[|s| - n - 1])
  {
    if |s| == 0 || !IsSpace(s[|s| - 1]) then 0 else 1 + TrailingSpace(s[..|s| - 1])
  }

  /** str.strip(): s without its leading and trailing whitespace. */
  function Strip(s: string): (r: string)
    ensures |r| == 0 || (!IsSpace(r[0]) && !IsSpace(r[|r| - 1]))
  {
    var a := LeadingSpace(s);
    if a == |s| then "" else s[a..|s| - TrailingSpace(s)]
  }

  /** Python's l[i] on a list of length n: negative i counts from the end; IndexError outside. */
  function PyIndex(i: int, n: nat): (r: Option<nat>)
    ensures r.Some? <==> -(n as int) <= i < n
    ensures r.Some? ==> r.value < n && (r.value == i || r.value == i + n)
  {
    if 0 <= i < n then Some(i) else if -(n as int) <= i < 0 then Some(i + n) else None
  }

  /** v[i] of a token list, with Python's indexing. */
  function Token(v: seq<string>, i: int): (r: Py<string>)
    ensures r.Raised? ==> r.error == IndexError
  {
    match PyIndex(i, |v|)
    case None => Raised(IndexError)
    case Some(k) => Value(v[k])
  }

  /** v[-3:]: the last three tokens, or all of them when there are fewer. */
  function LastThree(v: seq<string>): (r: seq<string>)
    ensures |r| == if |v| < 3 then |v| else 3
    ensures r == v[|v| - |r|..]
  {
    if |v| < 3 then v else v[|v| - 3..]
  }

  function IsDigit(c: char): bool
  {
    '0' <= c <= '9'
  }

  predicate AllDigits(s: string)
  {
    forall i :: 0 <= i < |s| ==> IsDigit(s[i])
  }

  /** The value of a string of decimal digits. */
  function DigitsValue(s: string): nat
    requires AllDigits(s)
  {
    if |s| == 0 then 0 else 10 * DigitsValue(s[..|s| - 1]) + (s[|s| - 1] as int - '0' as int)
  }

  /**
   * int(tok) on a token: an optional sign and at least one ASCII digit; anything else raises
   * ValueError.
   */
  function ParseInt(tok: string): (r: Py<int>)
    ensures r.Raised? ==> r.error == ValueError
  {
    if |tok| > 0 && AllDigits(tok) then Value(DigitsValue(tok))
    else if |tok| > 1 && (tok[0] == '-' || tok[0] == '+') && AllDigits(tok[1..]) then
      Value(if tok[0] == '-' then -(DigitsValue(tok[1..]) as int) else DigitsValue(tok[1..]))
    else Raised(ValueError)
  }

  function DigitChar(d: int): (c: char)
    requires 0 <= d < 10
    ensures IsDigit(c) && c as int - '0' as int == d
  {
    ('0' as int + d) as char
  }

  /** "%d" of a natural number: its decimal digits, without leading zeros. */
  function NatToString(n: nat): (s: string)
    ensures |s| > 0 && AllDigits(s)
    decreases n
  {
    if n < 10 then [DigitChar(n)] else NatToString(n / 10) + [DigitChar(n % 10)]
  }

  /** "%d" of an integer: a minus sign before the digits of -i when i is negative. */
  function IntToString(i: int): (s: string)
    decreases if i < 0 then 1 else 0
  {
    if i < 0 then "-" + IntToString(-i) else NatToString(i)
  }

  lemma {:induction false} NatToStringValue(n: nat)
    ensures DigitsValue(NatToString(n)) == n
    decreases n
  {
    if n >= 10 {
      var s := NatToString(n);
      NatToStringValue(n / 10);
      assert s[..|s| - 1] == NatToString(n / 10);
    }
  }

  /** int() reads back what "%d" writes. */
  lemma ParseIntOfIntToString(i: int)
    ensures ParseInt(IntToString(i)) == Value(i)
  {
    if i < 0 {
      var s := IntToString(i);
      NatToStringValue(-i);
      assert IntToString(-i) == NatToString(-i);
      assert s == "-" + NatToString(-i);
      assert s[1..] == NatToString(-i);
      assert !IsDigit(s[0]);
    } else {
      NatToStringValue(i);
    }
  }
}
