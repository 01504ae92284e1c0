/** String and number primitives of the JavaScript runtime that the query
    engine relies on: toLowerCase, trim, includes, startsWith,
    Number.prototype.toString, parseInt and Array.prototype.join(' '). */
module Text {
  import opened Wrappers

  // ---------------------------------------------------------------------
  // Case and whitespace
  // ---------------------------------------------------------------------

  /** ASCII-only stand-in for toLowerCase: 'A'..'Z' become 'a'..'z',
      every other character is left alone. */
  function LowerChar(c: char): char {
    if 'A' <= c <= 'Z' then (c as int + 32) as char else c
  }

  function Lower(s: string): string {
    seq(|s|, i requires 0 <= i < |s| => LowerChar(s[i]))
  }

  /** Every string of xs lower-cased. */
  function LowerAll(xs: seq<string>): (r: seq<string>)
    ensures |r| == |xs| && forall i :: 0 <= i < |xs| ==> r[i] == Lower(xs[i])
  {
    seq(|xs|, i requires 0 <= i < |xs| => Lower(xs[i]))
  }

  /** The characters that String.prototype.trim and parseInt skip:
      ECMAScript WhiteSpace (tab, vertical tab, form feed, space, no-break
      space, zero width no-break space, the Zs category) and LineTerminator
      (line feed, carriage return, line and paragraph separators). */
  predicate IsJsSpace(c: char) {
    || c == '\t' || c == '\n' || c == '\U{000B}' || c == '\U{000C}' || c == '\r'
    || c == ' ' || c == '\U{00A0}' || c == '\U{1680}'
    || ('\U{2000}' <= c <= '\U{200A}')
    || c == '\U{2028}' || c == '\U{2029}' || c == '\U{202F}' || c == '\U{205F}'
    || c == '\U{3000}' || c == '\U{FEFF}'
  }

  function TrimStart(s: string): (r: string)
    ensures |r| <= |s| && r == s[|s| - |r|..]
    ensures r != [] ==> !IsJsSpace(r[0])
    ensures forall i :: 0 <= i < |s| - |r| ==> IsJsSpace(s[i])
  {
    if s != [] && IsJsSpace(s[0]) then TrimStart(s[1..]) else s
  }

  function TrimEnd(s: string): (r: string)
    ensures |r| <= |s| && r == s[..|r|]
    ensures r != [] ==> !IsJsSpace(r[|r| - 1])
    ensures forall i :: |r| <= i < |s| ==> IsJsSpace(s[i])
  {
    if s != [] && IsJsSpace(s[|s| - 1]) then TrimEnd(s[..|s| - 1]) else s
  }

  /** String.prototype.trim: both ends stripped of IsJsSpace characters. */
  function Trim(s: string): string {
    TrimEnd(TrimStart(s))
  }

  /** Lower-casing then trimming, the normalisation applied to names and
      queries throughout the engine. */
  function Normalize(s: string): string {
    Trim(Lower(s))
  }

  // ---------------------------------------------------------------------
  // Truthiness of optional fields
  // ---------------------------------------------------------------------

  /** An optional string field is truthy when it is present and not "". */
  predicate TruthyStr(o: Option<string>) {
    o.Some? && o.value != ""
  }

  /** An optional integer field is truthy when it is present and not 0. */
  predicate TruthyNum(o: Option<int>) {
    o.Some? && o.value != 0
  }

  // ---------------------------------------------------------------------
  // Searching inside strings
  // ---------------------------------------------------------------------

  /** String.prototype.includes. */
  predicate Contains(s: string, sub: string) {
    exists i | 0 <= i <= |s| - |sub| :: OccursAt(s, sub, i)
  }

  /** sub occurs in s starting at index i. */
  predicate OccursAt(s: string, sub: string, i: nat) {
    i + |sub| <= |s| && s[i..i + |sub|] == sub
  }

  /** list.some(x => s.includes(x)). */
  predicate AnyContained(s: string, subs: seq<string>) {
    exists i | 0 <= i < |subs| :: Contains(s, subs[i])
  }

  /** String.prototype.startsWith. */
  predicate StartsWith(s: string, prefix: string) {
    |prefix| <= |s| && s[..|prefix|] == prefix
  }

  /** Array.prototype.join(' ') on a list of strings. */
  function JoinSpaces(parts: seq<string>): string {
    if parts == [] then ""
    else if |parts| == 1 then parts[0]
    else parts[0] + " " + JoinSpaces(parts[1..])
  }

  // ---------------------------------------------------------------------
  // Decimal rendering (Number.prototype.toString on integers)
  // ---------------------------------------------------------------------

  function Pow10(k: nat): (r: nat)
    ensures r >= 1
  {
    if k == 0 then 1 else 10 * Pow10(k - 1)
  }

  predicate IsDigit(c: char) {
    '0' <= c <= '9'
  }

  predicate AllDigits(s: string) {
    forall i :: 0 <= i < |s| ==> IsDigit(s[i])
  }

  function DigitChar(d: nat): char
    requires d < 10
  {
    ('0' as int + d) as char
  }

  function DigitValue(c: char): nat
    requires IsDigit(c)
  {
    c as int - '0' as int
  }

  function NatToString(n: nat): string
    decreases n
  {
    if n < 10 then [DigitChar(n)] else NatToString(n / 10) + [DigitChar(n % 10)]
  }

  function IntToString(n: int): string {
    if n < 0 then "-" + NatToString(-n) else NatToString(n)
  }

  /** The value of a string of decimal digits, most significant first. */
  function DigitsValue(s: string): nat
    requires AllDigits(s)
  {
    if s == [] then 0 else DigitsValue(s[..|s| - 1]) * 10 + DigitValue(s[|s| - 1])
  }

  // ---------------------------------------------------------------------
  // parseInt(s) without a radix
  // ---------------------------------------------------------------------

  predicate IsHexDigit(c: char) {
    IsDigit(c) || 'a' <= c <= 'f' || 'A' <= c <= 'F'
  }

  predicate AllHexDigits(s: string) {
    forall i :: 0 <= i < |s| ==> IsHexDigit(s[i])
  }

  function HexDigitValue(c: char): nat
    requires IsHexDigit(c)
  {
    if IsDigit(c) then DigitValue(c)
    else if 'a' <= c <= 'f' then c as int - 'a' as int + 10
    else c as int - 'A' as int + 10
  }

  function HexDigitsValue(s: string): nat
    requires AllHexDigits(s)
  {
    if s == [] then 0 else HexDigitsValue(s[..|s| - 1]) * 16 + HexDigitValue(s[|s| - 1])
  }

  /** Length of the longest prefix of decimal digits. */
  function DigitRun(s: string): (n: nat)
    ensures n <= |s| && AllDigits(s[..n])
    ensures n < |s| ==> !IsDigit(s[n])
  {
    if s != [] && IsDigit(s[0]) then
      var k := DigitRun(s[1..]);
      assert s[..k + 1] == [s[0]] + s[1..][..k];
      k + 1
    else 0
  }

  /** Length of the longest prefix of hexadecimal digits. */
  function HexRun(s: string): (n: nat)
    ensures n <= |s| && AllHexDigits(s[..n])
    ensures n < |s| ==> !IsHexDigit(s[n])
  {
    if s != [] && IsHexDigit(s[0]) then
      var k := HexRun(s[1..]);
      assert s[..k + 1] == [s[0]] + s[1..][..k];
      k + 1
    else 0
  }

  /** The magnitude parseInt reads after the sign: a "0x"/"0X" prefix
      switches to base 16, otherwise the longest decimal prefix is read;
      no digit at all is NaN (None). */
  function ParseMagnitude(u: string): Option<nat> {
    if |u| >= 2 && u[0] == '0' && (u[1] == 'x' || u[1] == 'X') then
      var h := HexRun(u[2..]);
      if h == 0 then None else Some(HexDigitsValue(u[2..][..h]))
    else
      var d := DigitRun(u);
      if d == 0 then None else Some(DigitsValue(u[..d]))
  }

  /** parseInt(s): leading whitespace skipped, an optional sign, then the
      magnitude. */
  function ParseInt(s: string): Option<int> {
    ParseSigned(TrimStart(s))
  }

  /** What parseInt reads once leading whitespace is gone. */
  function ParseSigned(t: string): Option<int> {
    var signed := t != [] && (t[0] == '-' || t[0] == '+');
    var u := if signed then t[1..] else t;
    match ParseMagnitude(u)
    case None => None
    case Some(m) =>
      var v: int := if signed && t[0] == '-' then -(m as int) else m;
      Some(v)
  }

  // ---------------------------------------------------------------------
  // Lemmas
  // ---------------------------------------------------------------------

  lemma LowerIdempotent(s: string)
    ensures Lower(Lower(s)) == Lower(s)
  {
  }

  /** A string without ASCII capitals is its own lower-cased form. */
  lemma NoUpperLower(s: string)
    requires forall i :: 0 <= i < |s| ==> !('A' <= s[i] <= 'Z')
    ensures Lower(s) == s
  {
  }

  lemma LowerConcat(a: string, b: string)
    ensures Lower(a + b) == Lower(a) + Lower(b)
  {
  }

  lemma ContainsSelf(s: string)
    ensures Contains(s, s)
  {
    assert OccursAt(s, s, 0);
  }

  /** includes is transitive: a string that contains a phrase contains
      every part of the phrase. */
  lemma ContainsTransitive(s: string, mid: string, sub: string)
    requires Contains(s, mid) && Contains(mid, sub)
    ensures Contains(s, sub)
  {
    var i :| 0 <= i <= |s| - |mid| && OccursAt(s, mid, i);
    var j :| 0 <= j <= |mid| - |sub| && OccursAt(mid, sub, j);
    assert i + |mid| <= |s| && s[i..i + |mid|] == mid;
    assert j + |sub| <= |mid| && mid[j..j + |sub|] == sub;
    forall k | 0 <= k < |sub|
      ensures s[i + j + k] == sub[k]
    {
      assert mid[j + k] == sub[k];
      assert s[i..i + |mid|][j + k] == s[i + j + k];
    }
    assert s[i + j..i + j + |sub|] == sub;
    assert OccursAt(s, sub, i + j);
  }

  lemma ContainsInfix(a: string, sub: string, b: string)
    ensures Contains(a + sub + b, sub)
  {
    assert (a + sub + b)[|a|..|a| + |sub|] == sub;
    assert OccursAt(a + sub + b, sub, |a|);
  }

  lemma StartsWithContains(s: string, prefix: string)
    requires StartsWith(s, prefix)
    ensures Contains(s, prefix)
  {
    assert OccursAt(s, prefix, 0);
  }

  /** Trim leaves alone a string that neither starts nor ends with
      whitespace. */
  lemma TrimNoSpace(s: string)
    requires s != [] ==> !IsJsSpace(s[0]) && !IsJsSpace(s[|s| - 1])
    ensures Trim(s) == s
  {
  }

  lemma TrimIdempotent(s: string)
    ensures Trim(Trim(s)) == Trim(s)
  {
    var t := Trim(s);
    if t != [] {
      var u := TrimStart(s);
      assert t == u[..|t|];
      assert t[0] == u[0];
    }
    TrimNoSpace(t);
  }

  lemma {:induction false} NatToStringDigits(n: nat)
    ensures |NatToString(n)| >= 1 && AllDigits(NatToString(n))
    ensures n >= 10 ==> NatToString(n)[0] != '0'
    decreases n
  {
    if n >= 10 {
      NatToStringDigits(n / 10);
      var s := NatToString(n / 10);
      assert NatToString(n)[0] == s[0];
      if n / 10 < 10 {
        assert s == [DigitChar(n / 10)];
      }
    }
  }

  lemma {:induction false} DigitsValueOfNatToString(n: nat)
    ensures AllDigits(NatToString(n)) && DigitsValue(NatToString(n)) == n
    decreases n
  {
    NatToStringDigits(n);
    if n >= 10 {
      DigitsValueOfNatToString(n / 10);
      var s := NatToString(n);
      assert s[..|s| - 1] == NatToString(n / 10);
    }
  }

  lemma AllDigitsRun(s: string)
    requires AllDigits(s)
    ensures DigitRun(s) == |s|
  {
  }

  /** The magnitude reader takes back a rendered natural number. */
  lemma ParseMagnitudeOfNatToString(m: nat)
    ensures ParseMagnitude(NatToString(m)) == Some(m)
  {
    var d := NatToString(m);
    NatToStringDigits(m);
    DigitsValueOfNatToString(m);
    AllDigitsRun(d);
    assert d[..|d|] == d;
    if |d| >= 2 {
      assert IsDigit(d[1]);
    }
  }

  lemma TrimStartNoSpace(s: string)
    requires s != [] && !IsJsSpace(s[0])
    ensures TrimStart(s) == s
  {
  }

  /** parseInt reads back what Number.prototype.toString wrote: decimal
      rendering and parsing are inverse on the integers. */
  lemma ParseIntOfIntToString(n: int)
    ensures ParseInt(IntToString(n)) == Some(n)
  {
    var m: nat := if n < 0 then -n else n;
    var d := NatToString(m);
    NatToStringDigits(m);
    ParseMagnitudeOfNatToString(m);
    var s := IntToString(n);
    if n < 0 {
      assert s == "-" + d;
      TrimStartNoSpace(s);
      assert s[1..] == d;
    } else {
      assert s == d;
      assert IsDigit(d[0]);
      TrimStartNoSpace(d);
      assert !(d[0] == '-' || d[0] == '+');
    }
  }

  /** The length of a rendering counts the decimal digits of the number. */
  lemma {:induction false} NatToStringLength(n: nat, k: nat)
    requires k >= 1
    ensures |NatToString(n)| > k <==> n >= Pow10(k)
    decreases n
  {
    if n >= 10 {
      if k == 1 {
        NatToStringDigits(n / 10);
      } else {
        NatToStringLength(n / 10, k - 1);
      }
    }
  }

  lemma DivUnique(n: nat, d: nat, q: nat, r: nat)
    requires d >= 1 && r < d && n == q * d + r
    ensures n / d == q && n % d == r
  {
    var q0, r0 := n / d, n % d;
    if q0 < q {
      assert q * d >= (q0 + 1) * d by { MulLe(q0 + 1, q, d); }
    } else if q < q0 {
      assert q0 * d >= (q + 1) * d by { MulLe(q + 1, q0, d); }
    }
  }

  lemma MulLe(a: nat, b: nat, c: nat)
    requires a <= b
    ensures a * c <= b * c
  {
  }

  lemma DivLe(a: nat, b: nat, d: nat)
    requires d >= 1 && a <= b * d
    ensures a / d <= b
  {
    if a / d > b {
      MulLe(b + 1, a / d, d);
    }
  }

  /** A leading part of a rendering is the number with the trailing digits
      dropped: the first k of L digits of n have the value n / 10^(L-k). */
  lemma NatToStringPrefix(n: nat, k: nat)
    requires k <= |NatToString(n)|
    ensures AllDigits(NatToString(n)[..k])
    ensures DigitsValue(NatToString(n)[..k]) == n / Pow10(|NatToString(n)| - k)
  {
    var s := NatToString(n);
    NatToStringDigits(n);
    DigitsValueOfNatToString(n);
    assert s == s[..k] + s[k..];
    DigitsValueConcat(s[..k], s[k..]);
    DigitsBelowPow(s[k..]);
    DivUnique(n, Pow10(|s| - k), DigitsValue(s[..k]), DigitsValue(s[k..]));
  }

  lemma {:induction false} DigitsValueConcat(a: string, b: string)
    requires AllDigits(a) && AllDigits(b)
    ensures AllDigits(a + b)
    ensures DigitsValue(a + b) == DigitsValue(a) * Pow10(|b|) + DigitsValue(b)
    decreases |b|
  {
    if b == [] {
      assert a + b == a;
    } else {
      var b' := b[..|b| - 1];
      assert (a + b)[..|a + b| - 1] == a + b';
      assert (a + b)[|a + b| - 1] == b[|b| - 1];
      DigitsValueConcat(a, b');
      var x, p, y, d := DigitsValue(a), Pow10(|b'|), DigitsValue(b'), DigitValue(b[|b| - 1]);
      assert DigitsValue(a + b) == DigitsValue(a + b') * 10 + d;
      assert DigitsValue(b) == y * 10 + d;
      assert Pow10(|b|) == p * 10;
      ShiftDigit(x, p, y, d);
    }
  }

  lemma ShiftDigit(x: int, p: int, y: int, d: int)
    ensures (x * p + y) * 10 + d == x * (p * 10) + (y * 10 + d)
  {
  }

  /** The digits of n between positions k and k + w (counted from the left)
      read as the number (n / 10^(L-k-w)) mod 10^w. */
  lemma NatToStringInfix(n: nat, k: nat, w: nat)
    requires k + w <= |NatToString(n)|
    ensures AllDigits(NatToString(n)[k..k + w])
    ensures DigitsValue(NatToString(n)[k..k + w])
         == (n / Pow10(|NatToString(n)| - k - w)) % Pow10(w)
  {
    var s := NatToString(n);
    NatToStringDigits(n);
    NatToStringPrefix(n, k + w);
    assert s[..k + w] == s[..k] + s[k..k + w];
    DigitsValueConcat(s[..k], s[k..k + w]);
    DigitsBelowPow(s[k..k + w]);
    DivUnique(n / Pow10(|s| - k - w), Pow10(w), DigitsValue(s[..k]), DigitsValue(s[k..k + w]));
  }

  /** The digits of n from position k on read as n mod 10^(L-k). */
  lemma NatToStringSuffix(n: nat, k: nat)
    requires k <= |NatToString(n)|
    ensures AllDigits(NatToString(n)[k..])
    ensures DigitsValue(NatToString(n)[k..]) == n % Pow10(|NatToString(n)| - k)
  {
    var s := NatToString(n);
    NatToStringInfix(n, k, |s| - k);
    assert s[k..k + (|s| - k)] == s[k..];
    assert Pow10(0) == 1;
  }

  lemma {:induction false} PowAdd(a: nat, b: nat)
    ensures Pow10(a + b) == Pow10(a) * Pow10(b)
    decreases b
  {
    if b > 0 {
      PowAdd(a, b - 1);
      assert Pow10(a + b) == 10 * Pow10(a + b - 1);
    }
  }

  lemma {:induction false} DigitsBelowPow(s: string)
    requires AllDigits(s)
    ensures DigitsValue(s) < Pow10(|s|)
    decreases |s|
  {
    if s != [] {
      DigitsBelowPow(s[..|s| - 1]);
    }
  }

  /** parseInt of an all-digit string reads all of it. */
  lemma ParseIntOfDigits(s: string)
    requires s != [] && AllDigits(s)
    ensures ParseInt(s) == Some(DigitsValue(s) as int)
  {
    assert !IsJsSpace(s[0]);
    assert TrimStart(s) == s;
    assert !(s[0] == '-' || s[0] == '+');
    assert ParseInt(s) == ParseSigned(s);
    if |s| >= 2 {
      assert IsDigit(s[1]);
    }
    AllDigitsRun(s);
    assert s[..|s|] == s;
    assert ParseMagnitude(s) == Some(DigitsValue(s));
  }

  lemma {:induction false} JoinSpacesEmpty(parts: seq<string>)
    requires forall i :: 0 <= i < |parts| ==> parts[i] != ""
    ensures JoinSpaces(parts) == "" <==> parts == []
  {
  }

  /** Every part of a space-joined list occurs in the joined string. */
  lemma {:induction false} JoinSpacesContains(parts: seq<string>, i: nat)
    requires i < |parts|
    ensures Contains(JoinSpaces(parts), parts[i])
  {
    if |parts| == 1 {
      ContainsSelf(parts[0]);
    } else {
      var rest := JoinSpaces(parts[1..]);
      if i == 0 {
        ContainsInfix("", parts[0], " " + rest);
        assert "" + parts[0] + (" " + rest) == JoinSpaces(parts);
      } else {
        JoinSpacesContains(parts[1..], i - 1);
        ContainsInfix(parts[0] + " ", rest, "");
        assert parts[0] + " " + rest + "" == JoinSpaces(parts);
        ContainsTransitive(JoinSpaces(parts), rest, parts[i]);
      }
    }
  }

  /** A number's decimal rendering is never empty and ends with a digit. */
  lemma IntToStringEndsWithDigit(n: int)
    ensures IntToString(n) != [] && IsDigit(IntToString(n)[|IntToString(n)| - 1])
  {
  }

  lemma DivGe(a: nat, b: nat, d: nat)
    requires d >= 1 && a >= b * d
    ensures a / d >= b
  {
    var q := a / d;
    assert a < (q + 1) * d;
    if q < b {
      MulLe(q + 1, b, d);
    }
  }

  // ---------------------------------------------------------------------
  // parseInt ignores letter case
  // ---------------------------------------------------------------------

  /** Lower-casing neither makes nor removes white space. */
  lemma LowerCharSpace(c: char)
    ensures IsJsSpace(LowerChar(c)) == IsJsSpace(c)
  {
  }

  lemma {:induction false} LowerTrimStart(s: string)
    ensures TrimStart(Lower(s)) == Lower(TrimStart(s))
    decreases |s|
  {
    if s != [] {
      var l := Lower(s);
      assert l[0] == LowerChar(s[0]);
      LowerCharSpace(s[0]);
      if IsJsSpace(s[0]) {
        assert l[1..] == Lower(s[1..]);
        LowerTrimStart(s[1..]);
        assert TrimStart(l) == TrimStart(l[1..]);
        assert TrimStart(s) == TrimStart(s[1..]);
      } else {
        assert TrimStart(l) == l;
        assert TrimStart(s) == s;
      }
    }
  }

  lemma {:induction false} LowerDigitRun(s: string)
    ensures DigitRun(Lower(s)) == DigitRun(s)
    ensures Lower(s)[..DigitRun(s)] == s[..DigitRun(s)]
    decreases |s|
  {
    if s != [] && IsDigit(s[0]) {
      assert Lower(s)[1..] == Lower(s[1..]);
      LowerDigitRun(s[1..]);
      var k := DigitRun(s[1..]);
      assert Lower(s)[..k + 1] == [Lower(s)[0]] + Lower(s[1..])[..k];
      assert s[..k + 1] == [s[0]] + s[1..][..k];
    }
  }

  lemma {:induction false} LowerHexRun(s: string)
    ensures HexRun(Lower(s)) == HexRun(s)
    decreases |s|
  {
    if s != [] {
      assert Lower(s)[1..] == Lower(s[1..]);
      LowerHexRun(s[1..]);
    }
  }

  lemma {:induction false} LowerHexDigitsValue(s: string)
    requires AllHexDigits(s)
    ensures AllHexDigits(Lower(s)) && HexDigitsValue(Lower(s)) == HexDigitsValue(s)
    decreases |s|
  {
    if s != [] {
      assert Lower(s)[..|s| - 1] == Lower(s[..|s| - 1]);
      LowerHexDigitsValue(s[..|s| - 1]);
    }
  }

  lemma LowerParseMagnitude(u: string)
    ensures ParseMagnitude(Lower(u)) == ParseMagnitude(u)
  {
    var w := Lower(u);
    if |u| >= 2 && u[0] == '0' && (u[1] == 'x' || u[1] == 'X') {
      assert w[2..] == Lower(u[2..]);
      LowerHexRun(u[2..]);
      var h := HexRun(u[2..]);
      assert w[2..][..h] == Lower(u[2..][..h]);
      if h > 0 {
        LowerHexDigitsValue(u[2..][..h]);
      }
    } else {
      LowerDigitRun(u);
    }
  }

  /** The sign and the digits after it survive lower-casing. */
  lemma LowerSign(t: string)
    ensures (Lower(t) != [] && (Lower(t)[0] == '-' || Lower(t)[0] == '+'))
        == (t != [] && (t[0] == '-' || t[0] == '+'))
    ensures t != [] ==> (Lower(t)[0] == '-') == (t[0] == '-')
    ensures t != [] ==> Lower(t)[1..] == Lower(t[1..])
  {
  }

  lemma LowerParseSigned(t: string)
    ensures ParseSigned(Lower(t)) == ParseSigned(t)
  {
    LowerSign(t);
    var signed := t != [] && (t[0] == '-' || t[0] == '+');
    var u := if signed then t[1..] else t;
    var u' := if signed then Lower(t)[1..] else Lower(t);
    assert u' == Lower(u);
    LowerParseMagnitude(u);
  }

  /** parseInt reads the same number from a string and its lower-cased
      form: only the letters of "0x" and of hexadecimal digits can change,
      and they keep their meaning. */
  lemma ParseIntLower(s: string)
    ensures ParseInt(Lower(s)) == ParseInt(s)
  {
    LowerTrimStart(s);
    LowerParseSigned(TrimStart(s));
  }
}
