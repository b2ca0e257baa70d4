/** String helpers the plugin relies on from Python: `str.join` with a
    separator, `str.split` on a one-character separator (the partner that
    reads a joined line back), and `%d` formatting of a count. */
module Text {

  /** Index of the first occurrence of `c` in `s`, or `|s|` when absent. */
  function FirstIndex(c: char, s: string): (k: nat)
    ensures k <= |s|
    ensures forall i :: 0 <= i < k ==> s[i] != c
    ensures k < |s| ==> s[k] == c
    ensures c !in s <==> k == |s|
  {
    if s == [] then 0
    else if s[0] == c then 0
    else 1 + FirstIndex(c, s[1..])
  }

  /** `sep.join(parts)`: the parts with `sep` between neighbours. A joined
      line is exactly as long as its parts plus one separator between each
      neighbouring pair. */
  function Join(sep: string, parts: seq<string>): (line: string)
    ensures parts != [] ==> |line| == SumOfLengths(parts) + (|parts| - 1) * |sep|
  {
    if parts == [] then ""
    else if |parts| == 1 then parts[0]
    else parts[0] + sep + Join(sep, parts[1..])
  }

  /** Joining a part in front of a non-empty list puts one separator between
      the part and the joined rest. */
  lemma JoinCons(sep: string, head: string, rest: seq<string>)
    requires rest != []
    ensures Join(sep, [head] + rest) == head + sep + Join(sep, rest)
  {
    assert ([head] + rest)[1..] == rest;
  }

  /** `s.split(sep)`: the maximal pieces of `s` between occurrences of `sep`;
      always at least one piece, and no piece contains `sep`. */
  function Split(sep: char, s: string): (pieces: seq<string>)
    ensures |pieces| >= 1
    ensures forall i :: 0 <= i < |pieces| ==> sep !in pieces[i]
    decreases |s|
  {
    var k := FirstIndex(sep, s);
    if k == |s| then [s]
    else [s[..k]] + Split(sep, s[k + 1..])
  }

  /** The first separator of `a + [c] + b` is the one after `a` when `a` has none. */
  lemma FirstIndexAfterPrefix(c: char, a: string, b: string)
    requires c !in a
    ensures FirstIndex(c, a + [c] + b) == |a|
  {
    var s := a + [c] + b;
    assert s[|a|] == c;
  }

  /** Splitting a joined line gives back its parts, provided no part contains
      the separator (the line is then unambiguous). */
  lemma {:induction false} SplitJoin(sep: char, parts: seq<string>)
    requires parts != []
    requires forall i :: 0 <= i < |parts| ==> sep !in parts[i]
    ensures Split(sep, Join([sep], parts)) == parts
  {
    var head := parts[0];
    if |parts| == 1 {
      assert FirstIndex(sep, head) == |head|;
    } else {
      var rest := Join([sep], parts[1..]);
      var s := head + [sep] + rest;
      assert Join([sep], parts) == s;
      FirstIndexAfterPrefix(sep, head, rest);
      assert s[..|head|] == head;
      assert s[|head| + 1..] == rest;
      assert Split(sep, s) == [head] + Split(sep, rest);
      SplitJoin(sep, parts[1..]);
      assert parts == [head] + parts[1..];
    }
  }

  /** Joining the pieces of a split line restores the line. */
  lemma {:induction false} JoinSplit(sep: char, s: string)
    ensures Join([sep], Split(sep, s)) == s
    decreases |s|
  {
    var k := FirstIndex(sep, s);
    if k < |s| {
      var tail := s[k + 1..];
      var rest := Split(sep, tail);
      JoinSplit(sep, tail);
      assert Split(sep, s) == [s[..k]] + rest;
      assert Join([sep], [s[..k]] + rest) == s[..k] + [sep] + Join([sep], rest) by {
        assert ([s[..k]] + rest)[1..] == rest;
      }
      assert s == s[..k] + [sep] + tail;
    }
  }

  /** The total length of the parts. */
  function SumOfLengths(parts: seq<string>): nat
  {
    if parts == [] then 0 else |parts[0]| + SumOfLengths(parts[1..])
  }

  predicate IsDigit(c: char)
  {
    '0' <= c <= '9'
  }

  predicate AllDigits(s: string)
  {
    forall i :: 0 <= i < |s| ==> IsDigit(s[i])
  }

  function DigitChar(d: nat): (c: char)
    requires d < 10
    ensures IsDigit(c) && c as int - '0' as int == d
  {
    ('0' as int + d) as char
  }

  /** The value of a string of decimal digits. */
  function DecimalValue(s: string): nat
    requires AllDigits(s)
  {
    if s == [] then 0
    else 10 * DecimalValue(s[..|s| - 1]) + (s[|s| - 1] as int - '0' as int)
  }

  /** `"%d" % n` for a non-negative `n`: decimal digits, no leading zero. */
  function NatToDecimal(n: nat): (s: string)
    ensures s != [] && AllDigits(s)
    ensures s[0] == '0' ==> n == 0
    ensures |s| == 1 <==> n < 10
    decreases n
  {
    if n < 10 then [DigitChar(n)]
    else NatToDecimal(n / 10) + [DigitChar(n % 10)]
  }

  /** Reading the formatted number back gives the number. */
  lemma {:induction false} DecimalRoundTrip(n: nat)
    ensures DecimalValue(NatToDecimal(n)) == n
    decreases n
  {
    var s := NatToDecimal(n);
    if n >= 10 {
      DecimalRoundTrip(n / 10);
      assert s[..|s| - 1] == NatToDecimal(n / 10);
    }
  }
}
