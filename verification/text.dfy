/** The JavaScript string operations the handlers rely on: truthiness,
    template interpolation, `trim`, `indexOf`, `split`, `join`, array
    indexing, and the number/string conversions used for download quotas. */
module Text {
  import opened Wrappers

  /** A string-typed JavaScript value that may be `undefined`. */
  type JsStr = Option<string>

  /** JavaScript truthiness of a string value: defined and not empty. */
  predicate Truthy(s: JsStr) {
    s.Some? && s.value != ""
  }

  /** Template-literal interpolation `${s}`: `undefined` is rendered as the word "undefined". */
  function Show(s: JsStr): string {
    match s
    case Some(v) => v
    case None => "undefined"
  }

  /** The WhiteSpace and LineTerminator code points that `String.prototype.trim` removes. */
  predicate IsJsSpace(c: char) {
    || c == '\t' || c == '\n' || c == '\U{000B}' || c == '\U{000C}' || c == '\r'
    || c == ' ' || c == '\U{00A0}' || c == '\U{1680}'
    || ('\U{2000}' <= c <= '\U{200A}')
    || c == '\U{2028}' || c == '\U{2029}' || c == '\U{202F}' || c == '\U{205F}'
    || c == '\U{3000}' || c == '\U{FEFF}'
  }

  predicate NoSpace(s: string) {
    forall i :: 0 <= i < |s| ==> !IsJsSpace(s[i])
  }

  /** Drops leading white space; what is left is a suffix of `s`. */
  function TrimStart(s: string): (r: string)
    ensures |r| <= |s| && r == s[|s| - |r|..]
    ensures forall i :: 0 <= i < |s| - |r| ==> IsJsSpace(s[i])
    ensures |r| > 0 ==> !IsJsSpace(r[0])
    decreases |s|
  {
    if |s| > 0 && IsJsSpace(s[0]) then TrimStart(s[1..]) else s
  }

  /** Drops trailing white space; what is left is a prefix of `s`. */
  function TrimEnd(s: string): (r: string)
    ensures |r| <= |s| && r == s[..|r|]
    ensures forall i :: |r| <= i < |s| ==> IsJsSpace(s[i])
    ensures |r| > 0 ==> !IsJsSpace(r[|r| - 1])
    decreases |s|
  {
    if |s| > 0 && IsJsSpace(s[|s| - 1]) then TrimEnd(s[..|s| - 1]) else s
  }

  /** `r` is `s` with white space, and only white space, cut from both ends. */
  predicate CutsSpaceEnds(s: string, r: string, i: int) {
    && 0 <= i <= i + |r| <= |s|
    && r == s[i..i + |r|]
    && (forall k :: 0 <= k < i ==> IsJsSpace(s[k]))
    && (forall k :: i + |r| <= k < |s| ==> IsJsSpace(s[k]))
  }

  /** How much white space `s` starts with. */
  function LeadingSpace(s: string): nat {
    |s| - |TrimStart(s)|
  }

  /** `String.prototype.trim`: the input without its white space at either
      end (the leading part being `LeadingSpace(s)` long), and with no white
      space left at either end. */
  function Trim(s: string): (r: string)
    ensures |r| > 0 ==> !IsJsSpace(r[0]) && !IsJsSpace(r[|r| - 1])
    ensures CutsSpaceEnds(s, r, LeadingSpace(s))
    ensures forall c :: c in r ==> c in s
  {
    var r := TrimEnd(TrimStart(s));
    TrimCutsSpaceEnds(s);
    r
  }

  lemma TrimCutsSpaceEnds(s: string)
    ensures CutsSpaceEnds(s, TrimEnd(TrimStart(s)), LeadingSpace(s))
  {
    CutsFromParts(s, TrimStart(s), TrimEnd(TrimStart(s)));
  }

  /** Cutting white space off the front of `s`, giving `t`, and then off
      the back of `t`, giving `r`, cuts white space off both ends of `s`. */
  lemma CutsFromParts(s: string, t: string, r: string)
    requires |t| <= |s| && t == s[|s| - |t|..]
    requires forall k :: 0 <= k < |s| - |t| ==> IsJsSpace(s[k])
    requires |r| <= |t| && r == t[..|r|]
    requires forall k :: |r| <= k < |t| ==> IsJsSpace(t[k])
    ensures CutsSpaceEnds(s, r, |s| - |t|)
  {
    var i := |s| - |t|;
    assert r == s[i..i + |r|];
    forall k | i + |r| <= k < |s| ensures IsJsSpace(s[k]) {
      assert s[k] == t[k - i];
    }
  }

  /** Only one string is `s` with white space cut from its ends and none
      left at them, so that is what `Trim` computes. */
  lemma {:induction false} TrimUnique(s: string, r: string, i: int)
    requires CutsSpaceEnds(s, r, i)
    requires |r| > 0 ==> !IsJsSpace(r[0]) && !IsJsSpace(r[|r| - 1])
    ensures Trim(s) == r
  {
    var t := Trim(s);
    var j := LeadingSpace(s);
    if |r| > 0 && |t| > 0 {
      assert s[i] == r[0] && s[j] == t[0];
      assert s[i + |r| - 1] == r[|r| - 1] && s[j + |t| - 1] == t[|t| - 1];
      assert i == j;
      assert |r| == |t|;
    }
  }

  lemma TrimWithoutSpace(s: string)
    requires NoSpace(s)
    ensures Trim(s) == s
  {
    assert TrimStart(s) == s by {
      if |s| > 0 {
        assert !IsJsSpace(s[0]);
      }
    }
    if |s| > 0 {
      assert !IsJsSpace(s[|s| - 1]);
    }
  }

  /** `s.indexOf(c)`, with -1 rendered as None. */
  function IndexOf(s: string, c: char): (r: Option<nat>)
    ensures r.None? <==> c !in s
    ensures r.Some? ==> r.value < |s| && s[r.value] == c && c !in s[..r.value]
    decreases |s|
  {
    if |s| == 0 then None
    else if s[0] == c then Some(0)
    else
      match IndexOf(s[1..], c)
      case None => None
      case Some(i) =>
        assert s[..i + 1] == [s[0]] + s[1..][..i];
        Some(i + 1)
  }

  lemma IndexOfAfter(a: string, c: char, b: string)
    requires c !in a
    ensures IndexOf(a + [c] + b, c) == Some(|a|)
  {
    var s := a + [c] + b;
    assert s[|a|] == c;
    assert s[..|a|] == a;
  }

  /** The text of `s` before its first `c`; all of `s` when it holds no `c`. */
  function Before(s: string, c: char): (r: string)
    ensures c !in r && r <= s
    ensures |r| < |s| ==> s[|r|] == c
  {
    match IndexOf(s, c)
    case None => s
    case Some(i) => s[..i]
  }

  lemma BeforeSeparator(a: string, c: char, b: string)
    requires c !in a
    ensures Before(a + [c] + b, c) == a
  {
    IndexOfAfter(a, c, b);
    assert (a + [c] + b)[..|a|] == a;
  }

  /** `parts.join(sep)`. */
  function Join(parts: seq<string>, sep: char): string
    decreases |parts|
  {
    if |parts| == 0 then ""
    else if |parts| == 1 then parts[0]
    else parts[0] + [sep] + Join(parts[1..], sep)
  }

  /** `s.split(sep)` for a one-character separator: never empty, no piece
      holds the separator, and joining the pieces gives `s` back. */
  function Split(s: string, sep: char): (parts: seq<string>)
    ensures |parts| > 0
    ensures forall i :: 0 <= i < |parts| ==> sep !in parts[i]
    ensures Join(parts, sep) == s
    decreases |s|
  {
    match IndexOf(s, sep)
    case None => [s]
    case Some(i) =>
      var rest := Split(s[i + 1..], sep);
      var parts := [s[..i]] + rest;
      assert parts[1..] == rest;
      assert s == s[..i] + [sep] + s[i + 1..];
      parts
  }

  /** The first piece of a split is the text before the first separator. */
  lemma SplitFirstPiece(s: string, sep: char)
    ensures Split(s, sep)[0] == Before(s, sep)
  {
  }

  /** The second piece of a split runs from after the first separator to the next one. */
  lemma SplitSecondPiece(s: string, sep: char)
    requires sep in s
    ensures var i := IndexOf(s, sep).value;
            |Split(s, sep)| >= 2 && Split(s, sep)[1] == Before(s[i + 1..], sep)
  {
    var i := IndexOf(s, sep).value;
    var rest := Split(s[i + 1..], sep);
    assert Split(s, sep) == [s[..i]] + rest;
    SplitFirstPiece(s[i + 1..], sep);
  }

  /** Splitting a joined list of separator-free pieces gives the pieces back. */
  lemma {:induction false} SplitJoin(parts: seq<string>, sep: char)
    requires |parts| > 0
    requires forall i :: 0 <= i < |parts| ==> sep !in parts[i]
    ensures Split(Join(parts, sep), sep) == parts
    decreases |parts|
  {
    if |parts| > 1 {
      var rest := Join(parts[1..], sep);
      var s := parts[0] + [sep] + rest;
      assert Join(parts, sep) == s;
      var k := |parts[0]|;
      IndexOfAfter(parts[0], sep, rest);
      assert s[..k] == parts[0];
      assert s[k + 1..] == rest;
      assert Split(s, sep) == [parts[0]] + Split(rest, sep);
      SplitJoin(parts[1..], sep);
      assert parts == [parts[0]] + parts[1..];
    }
  }

  /** JavaScript array indexing `parts[i]`: `undefined` past the end. */
  function At(parts: seq<string>, i: nat): JsStr {
    if i < |parts| then Some(parts[i]) else None
  }

  predicate IsDigit(c: char) {
    '0' <= c <= '9'
  }

  predicate AllDigits(s: string) {
    forall i :: 0 <= i < |s| ==> IsDigit(s[i])
  }

  function DigitChar(d: nat): (c: char)
    requires d < 10
    ensures IsDigit(c) && (c as int) - ('0' as int) == d
  {
    (('0' as int) + d) as char
  }

  /** The value of a decimal numeral (most significant digit first). */
  function DecimalValue(s: string): nat
    requires AllDigits(s)
    decreases |s|
  {
    if |s| == 0 then 0
    else 10 * DecimalValue(s[..|s| - 1]) + ((s[|s| - 1] as int) - ('0' as int))
  }

  /** `n.toString()` for a non-negative integer: a numeral whose value is `n`. */
  function NatToDecimal(n: nat): (s: string)
    ensures |s| > 0 && AllDigits(s)
    ensures DecimalValue(s) == n
    decreases n
  {
    if n < 10 then [DigitChar(n)]
    else
      var prefix := NatToDecimal(n / 10);
      var s := prefix + [DigitChar(n % 10)];
      assert s[..|s| - 1] == prefix;
      s
  }

  /** `n.toString()` for an integer. */
  function IntToString(n: int): (s: string)
    ensures |s| > 0
  {
    if n < 0 then "-" + NatToDecimal(-n) else NatToDecimal(n)
  }

  /** The part of JavaScript's string-to-number conversion that the model
      covers: surrounding white space is ignored, a blank string is 0, and an
      optional sign followed by decimal digits is read as an integer. Any other
      text is None (NaN, or a numeric form the model leaves out). */
  function StringToNumber(s: string): Option<int> {
    var t := Trim(s);
    if t == "" then Some(0)
    else if AllDigits(t) then Some(DecimalValue(t))
    else if |t| > 1 && (t[0] == '-' || t[0] == '+') && AllDigits(t[1..]) then
      var magnitude: int := DecimalValue(t[1..]);
      Some(if t[0] == '-' then -magnitude else magnitude)
    else None
  }

  /** A numeral is read as its decimal value. */
  lemma DigitsToNumber(s: string)
    requires |s| > 0 && AllDigits(s)
    ensures StringToNumber(s) == Some(DecimalValue(s))
  {
    forall i | 0 <= i < |s| ensures !IsJsSpace(s[i]) {
      assert IsDigit(s[i]);
    }
    TrimWithoutSpace(s);
  }

  /** Converting an integer to its string and back gives the integer. */
  lemma NumberStringRoundTrip(n: int)
    ensures StringToNumber(IntToString(n)) == Some(n)
  {
    var s := IntToString(n);
    var d := NatToDecimal(if n < 0 then -n else n);
    assert forall i :: 0 <= i < |d| ==> !IsJsSpace(d[i]) by {
      forall i | 0 <= i < |d| ensures !IsJsSpace(d[i]) {
        assert IsDigit(d[i]);
      }
    }
    if n < 0 {
      assert s == "-" + d;
      assert s[1..] == d;
      assert NoSpace(s) by {
        forall i | 0 <= i < |s| ensures !IsJsSpace(s[i]) {
          if i > 0 {
            assert s[i] == d[i - 1];
          }
        }
      }
      TrimWithoutSpace(s);
      assert !AllDigits(s) by {
        assert !IsDigit(s[0]);
      }
    } else {
      TrimWithoutSpace(s);
    }
  }
}
