/** Machine integers, decimal and hexadecimal text, and the string splitting
    and joining that the test suite does with Go's strconv, fmt and strings
    packages. Go strings are modelled as sequences of Unicode scalar values. */
module Prelude {

  type Byte = b: int | 0 <= b < 0x100
  type Uint16 = x: int | 0 <= x < 0x1_0000
  type Uint32 = x: int | 0 <= x < 0x1_0000_0000
  type Uint64 = x: int | 0 <= x < 0x1_0000_0000_0000_0000
  type Int32 = x: int | -0x8000_0000 <= x < 0x8000_0000

  const Uint64Modulus: int := 0x1_0000_0000_0000_0000

  datatype Option<+T> = None | Some(value: T)

  /** A value, or the text of the Go error returned instead of it. */
  datatype Result<+T> = Ok(value: T) | Err(error: string)

  // ---------------------------------------------------------------------
  // Decimal text (strconv.Itoa, and fmt's %d verb)
  // ---------------------------------------------------------------------

  predicate IsDigit(c: char) { '0' <= c <= '9' }

  predicate AllDigits(s: string) { forall i :: 0 <= i < |s| ==> IsDigit(s[i]) }

  function DigitChar(d: nat): (c: char)
    requires d < 10
    ensures IsDigit(c) && c as int - '0' as int == d
  {
    ('0' as int + d) as char
  }

  /** The decimal digits of n, most significant first, without leading zeros. */
  function NatToDecimal(n: nat): (s: string)
    ensures 1 <= |s| && AllDigits(s)
    ensures |s| > 1 ==> s[0] != '0'
    decreases n
  {
    if n < 10 then [DigitChar(n)] else NatToDecimal(n / 10) + [DigitChar(n % 10)]
  }

  /** The value of a string of decimal digits (the inverse of NatToDecimal). */
  function DecimalValue(s: string): nat
    requires AllDigits(s)
  {
    if |s| == 0 then 0
    else DecimalValue(s[..|s| - 1]) * 10 + (s[|s| - 1] as int - '0' as int)
  }

  lemma {:induction false} DecimalRoundTrip(n: nat)
    ensures DecimalValue(NatToDecimal(n)) == n
  {
    if n >= 10 {
      DecimalRoundTrip(n / 10);
      var s := NatToDecimal(n);
      assert s[..|s| - 1] == NatToDecimal(n / 10);
    }
  }

  /** strconv.Itoa: a leading '-' for negative numbers, then the digits. */
  function Itoa(i: int): (s: string)
    ensures 1 <= |s|
    ensures i >= 0 ==> AllDigits(s)
    ensures i < 0 ==> s[0] == '-' && AllDigits(s[1..])
  {
    if i < 0 then "-" + NatToDecimal(-i) else NatToDecimal(i)
  }

  /** The value of the text Itoa produces. */
  function ParseInt(s: string): int
  {
    if |s| > 0 && s[0] == '-' && AllDigits(s[1..]) then -(DecimalValue(s[1..]) as int)
    else if AllDigits(s) then DecimalValue(s)
    else 0
  }

  lemma ItoaRoundTrip(i: int)
    ensures ParseInt(Itoa(i)) == i
  {
    if i < 0 {
      DecimalRoundTrip(-i);
      assert Itoa(i)[1..] == NatToDecimal(-i);
    } else {
      DecimalRoundTrip(i);
    }
  }

  // ---------------------------------------------------------------------
  // Lower-case hexadecimal text (encoding/hex, and fmt's %x on a byte slice)
  // ---------------------------------------------------------------------

  predicate IsLowerHex(c: char) { '0' <= c <= '9' || 'a' <= c <= 'f' }

  function HexDigit(d: nat): (c: char)
    requires d < 16
    ensures IsLowerHex(c)
  {
    if d < 10 then ('0' as int + d) as char else ('a' as int + d - 10) as char
  }

  function HexDigitValue(c: char): (d: nat)
    requires IsLowerHex(c)
    ensures d < 16
  {
    if '0' <= c <= '9' then c as int - '0' as int else c as int - 'a' as int + 10
  }

  /** Two lower-case hex digits per byte, high nibble first. */
  function Hex(b: seq<Byte>): (s: string)
    ensures |s| == 2 * |b|
    ensures forall i :: 0 <= i < |s| ==> IsLowerHex(s[i])
  {
    if |b| == 0 then "" else [HexDigit(b[0] / 16), HexDigit(b[0] % 16)] + Hex(b[1..])
  }

  /** Decoding of an even-length string of lower-case hex digits. */
  function Unhex(s: string): seq<Byte>
    requires |s| % 2 == 0
    requires forall i :: 0 <= i < |s| ==> IsLowerHex(s[i])
  {
    if |s| == 0 then [] else [HexDigitValue(s[0]) * 16 + HexDigitValue(s[1])] + Unhex(s[2..])
  }

  lemma {:induction false} UnhexHex(b: seq<Byte>)
    ensures Unhex(Hex(b)) == b
  {
    if |b| > 0 {
      UnhexHex(b[1..]);
      var s := Hex(b);
      assert s[2..] == Hex(b[1..]);
      assert HexDigitValue(s[0]) == b[0] / 16 && HexDigitValue(s[1]) == b[0] % 16;
    }
  }

  /** Two byte strings with the same hex text are equal. */
  lemma HexInjective(a: seq<Byte>, b: seq<Byte>)
    requires Hex(a) == Hex(b)
    ensures a == b
  {
    UnhexHex(a);
    UnhexHex(b);
  }

  // ---------------------------------------------------------------------
  // strings.Join, strings.Split, strings.SplitN(s, sep, 2), strings.TrimSpace
  // ---------------------------------------------------------------------

  /** strings.Join: no separator before the first part or after the last one. */
  function Join(parts: seq<string>, sep: string): string
  {
    if |parts| == 0 then ""
    else if |parts| == 1 then parts[0]
    else parts[0] + sep + Join(parts[1..], sep)
  }

  lemma JoinCons(p: string, rest: seq<string>, sep: string)
    requires |rest| >= 1
    ensures Join([p] + rest, sep) == p + sep + Join(rest, sep)
  {
    assert ([p] + rest)[1..] == rest;
  }

  /** The index of the first c in s, or |s| when s has none. */
  function IndexOf(s: string, c: char): (i: nat)
    ensures i <= |s|
    ensures i < |s| ==> s[i] == c
    ensures forall j :: 0 <= j < i ==> s[j] != c
  {
    if |s| == 0 then 0 else if s[0] == c then 0 else 1 + IndexOf(s[1..], c)
  }

  /** strings.Split(s, [sep]): the pieces between separators; "" splits into [""]. */
  function Split(s: string, sep: char): (parts: seq<string>)
    ensures |parts| >= 1
    ensures forall i :: 0 <= i < |parts| ==> sep !in parts[i]
    ensures Join(parts, [sep]) == s
    decreases |s|
  {
    var i := IndexOf(s, sep);
    if i == |s| then [s]
    else
      var rest := Split(s[i + 1..], sep);
      assert ([s[..i]] + rest)[1..] == rest;
      [s[..i]] + rest
  }

  lemma IndexOfAt(a: string, c: char, b: string)
    requires c !in a
    ensures IndexOf(a + [c] + b, c) == |a|
  {
    var s := a + [c] + b;
    assert s[|a|] == c;
  }

  /** Splitting the joined parts recovers them when no part holds the separator. */
  lemma {:induction false} SplitJoin(parts: seq<string>, sep: char)
    requires |parts| >= 1
    requires forall i :: 0 <= i < |parts| ==> sep !in parts[i]
    ensures Split(Join(parts, [sep]), sep) == parts
  {
    if |parts| == 1 {
      assert IndexOf(parts[0], sep) == |parts[0]|;
    } else {
      var tail := Join(parts[1..], [sep]);
      var s := parts[0] + [sep] + tail;
      assert s == Join(parts, [sep]);
      IndexOfAt(parts[0], sep, tail);
      assert s[..|parts[0]|] == parts[0];
      assert s[|parts[0]| + 1..] == tail;
      SplitJoin(parts[1..], sep);
      assert parts == [parts[0]] + parts[1..];
    }
  }

  /** strings.SplitN(s, [c], 2) when it yields two parts: the text before the
      first c and everything after it (which may hold more c's). */
  function CutFirst(s: string, c: char): (r: Option<(string, string)>)
    ensures r.None? <==> c !in s
    ensures r.Some? ==> c !in r.value.0 && r.value.0 + [c] + r.value.1 == s
  {
    var i := IndexOf(s, c);
    if i == |s| then None
    else
      assert s == s[..i] + [c] + s[i + 1..];
      Some((s[..i], s[i + 1..]))
  }

  lemma CutFirstOf(a: string, c: char, b: string)
    requires c !in a
    ensures CutFirst(a + [c] + b, c) == Some((a, b))
  {
    IndexOfAt(a, c, b);
    var s := a + [c] + b;
    assert s[..|a|] == a && s[|a| + 1..] == b;
  }

  /** unicode.IsSpace: the white space that strings.TrimSpace removes. */
  predicate IsSpace(c: char)
  {
    || c == ' ' || c == '\t' || c == '\n' || c == '\U{B}' || c == '\U{C}' || c == '\r'
    || c == '\U{85}' || c == '\U{A0}' || c == '\U{1680}'
    || ('\U{2000}' <= c <= '\U{200A}')
    || c == '\U{2028}' || c == '\U{2029}' || c == '\U{202F}' || c == '\U{205F}' || c == '\U{3000}'
  }

  predicate IsTrimmed(s: string)
  {
    |s| == 0 || (!IsSpace(s[0]) && !IsSpace(s[|s| - 1]))
  }

  function TrimLeft(s: string): (r: string)
    ensures |r| <= |s|
    ensures |r| == 0 || !IsSpace(r[0])
    ensures |r| > 0 ==> !IsSpace(s[|s| - |r|]) && r[|r| - 1] == s[|s| - 1]
    ensures |s| > 0 && !IsSpace(s[0]) ==> r == s
  {
    if |s| > 0 && IsSpace(s[0]) then TrimLeft(s[1..]) else s
  }

  function TrimRight(s: string): (r: string)
    ensures |r| <= |s|
    ensures |r| == 0 || !IsSpace(r[|r| - 1])
    ensures |r| > 0 ==> r[0] == s[0]
    ensures |s| > 0 && !IsSpace(s[|s| - 1]) ==> r == s
  {
    if |s| > 0 && IsSpace(s[|s| - 1]) then TrimRight(s[..|s| - 1]) else s
  }

  /** r is s[i..i + |r|], and everything before and after it is white space. */
  ghost predicate Surrounds(s: string, r: string, i: int)
  {
    && 0 <= i && i + |r| <= |s|
    && r == s[i..i + |r|]
    && (forall k :: 0 <= k < i ==> IsSpace(s[k]))
    && (forall k :: i + |r| <= k < |s| ==> IsSpace(s[k]))
  }

  /** strings.TrimSpace: drops leading and trailing white space and nothing else. */
  function TrimSpace(s: string): (r: string)
    ensures IsTrimmed(r)
    ensures IsTrimmed(s) ==> r == s
    ensures |r| <= |s|
  {
    var l := TrimLeft(s);
    var r := TrimRight(l);
    assert |r| > 0 ==> r[0] == l[0];
    r
  }

  /** TrimLeft keeps a suffix and drops only white space before it. */
  lemma {:induction false} TrimLeftDrops(s: string)
    ensures TrimLeft(s) == s[|s| - |TrimLeft(s)|..]
    ensures forall k :: 0 <= k < |s| - |TrimLeft(s)| ==> IsSpace(s[k])
  {
    if |s| > 0 && IsSpace(s[0]) {
      TrimLeftDrops(s[1..]);
      assert forall k :: 1 <= k < |s| - |TrimLeft(s)| ==> s[k] == s[1..][k - 1];
    }
  }

  /** TrimRight keeps a prefix and drops only white space after it. */
  lemma {:induction false} TrimRightDrops(s: string)
    ensures TrimRight(s) == s[..|TrimRight(s)|]
    ensures forall k :: |TrimRight(s)| <= k < |s| ==> IsSpace(s[k])
  {
    if |s| > 0 && IsSpace(s[|s| - 1]) {
      TrimRightDrops(s[..|s| - 1]);
      assert forall k :: 0 <= k < |s| - 1 ==> s[k] == s[..|s| - 1][k];
    }
  }

  /** TrimSpace keeps a middle part of its input and drops only white space
      around it. */
  lemma TrimSpaceMeaning(s: string)
    ensures exists i :: Surrounds(s, TrimSpace(s), i)
  {
    var l := TrimLeft(s);
    TrimLeftDrops(s);
    TrimRightDrops(l);
    TrimBothSurrounds(s, l, TrimSpace(s));
  }

  /** Dropping white space from the front and then from the back leaves a
      middle part surrounded by white space. */
  lemma TrimBothSurrounds(s: string, l: string, r: string)
    requires |l| <= |s| && l == s[|s| - |l|..]
    requires forall k :: 0 <= k < |s| - |l| ==> IsSpace(s[k])
    requires |r| <= |l| && r == l[..|r|]
    requires forall k :: |r| <= k < |l| ==> IsSpace(l[k])
    ensures Surrounds(s, r, |s| - |l|)
  {
    var i := |s| - |l|;
    assert r == s[i..i + |r|];
    forall k | i + |r| <= k < |s|
      ensures IsSpace(s[k])
    {
      assert s[k] == l[k - i];
    }
  }

  // ---------------------------------------------------------------------
  // Go map iteration
  // ---------------------------------------------------------------------

  /** order lists every key of m exactly once: one possible order in which
      a Go `range` over the map visits it. */
  ghost predicate IsIterationOrder<K, V>(order: seq<K>, m: map<K, V>)
  {
    && (forall i :: 0 <= i < |order| ==> order[i] in m)
    && (forall k :: k in m ==> k in order)
    && (forall i, j :: 0 <= i < j < |order| ==> order[i] != order[j])
  }

  /** A range over a map visits as many entries as the map holds. */
  lemma {:induction false} IterationOrderLength<K, V>(order: seq<K>, m: map<K, V>)
    requires IsIterationOrder(order, m)
    ensures |order| == |m|
  {
    if |order| == 0 {
      assert m == map[];
    } else {
      var last := order[|order| - 1];
      var init := order[..|order| - 1];
      var rest := m - {last};
      forall i | 0 <= i < |init| ensures init[i] in rest {
        assert init[i] == order[i];
      }
      forall k | k in rest ensures k in init {
        var i :| 0 <= i < |order| && order[i] == k;
        assert i != |order| - 1;
      }
      IterationOrderLength(init, rest);
      assert m.Keys == rest.Keys + {last};
    }
  }
}
