/** String helpers shared by the backend (Python) and the frontend (TypeScript):
    whitespace stripping, splitting on a separator, decimal rendering,
    left padding and code-point lexicographic order. */
module Text {

  /** Whose notion of whitespace a strip uses. */
  datatype Flavor = Python | JavaScript

  /** Python: the characters `str.isspace` accepts, which `str.strip()` removes.
      JavaScript: WhiteSpace and LineTerminator, which `String.prototype.trim` removes.
      They differ on U+001C..U+001F and U+0085 (Python only) and U+FEFF (JavaScript only). */
  predicate IsSpace(flavor: Flavor, c: char) {
    var n := c as int;
    || (0x09 <= n <= 0x0D)
    || n == 0x20 || n == 0xA0 || n == 0x1680
    || (0x2000 <= n <= 0x200A)
    || n == 0x2028 || n == 0x2029 || n == 0x202F || n == 0x205F || n == 0x3000
    || (flavor == Python && ((0x1C <= n <= 0x1F) || n == 0x85))
    || (flavor == JavaScript && n == 0xFEFF)
  }

  predicate AllSpace(flavor: Flavor, s: string) {
    forall k | 0 <= k < |s| :: IsSpace(flavor, s[k])
  }

  /** Neither end of `s` is whitespace. */
  predicate IsTrimmed(flavor: Flavor, s: string) {
    |s| == 0 || (!IsSpace(flavor, s[0]) && !IsSpace(flavor, s[|s| - 1]))
  }

  /** How many whitespace characters `s` starts with. */
  function LeadingSpaces(flavor: Flavor, s: string): (n: nat)
    ensures n <= |s|
    ensures AllSpace(flavor, s[..n])
    ensures n < |s| ==> !IsSpace(flavor, s[n])
  {
    if |s| > 0 && IsSpace(flavor, s[0]) then
      var m := LeadingSpaces(flavor, s[1..]);
      m + 1
    else 0
  }

  /** The length of `s` once its trailing whitespace is dropped. */
  function TrailingStart(flavor: Flavor, s: string): (n: nat)
    ensures n <= |s|
    ensures AllSpace(flavor, s[n..])
    ensures n > 0 ==> !IsSpace(flavor, s[n - 1])
  {
    if |s| > 0 && IsSpace(flavor, s[|s| - 1]) then
      var init := s[..|s| - 1];
      var m := TrailingStart(flavor, init);
      assert forall k | 0 <= k < |s| - m :: s[m..][k] == if k < |init| - m then init[m..][k] else s[|s| - 1];
      assert m > 0 ==> s[m - 1] == init[m - 1];
      m
    else |s|
  }

  /** Python `s.strip()` or JavaScript `s.trim()`: the longest infix of `s`
      that neither starts nor ends with whitespace, everything around it being whitespace. */
  function Trim(flavor: Flavor, s: string): (r: string)
    ensures IsTrimmed(flavor, r)
    ensures exists i | 0 <= i <= |s| - |r| ::
              && r == s[i..i + |r|]
              && AllSpace(flavor, s[..i])
              && AllSpace(flavor, s[i + |r|..])
  {
    var i := LeadingSpaces(flavor, s);
    var n := TrailingStart(flavor, s[i..]);
    TrimFrame(flavor, s, i, n);
    s[i..i + n]
  }

  /** Leading whitespace `s[..i]`, then trailing whitespace after `n` more
      characters, frame a stripped infix. */
  lemma TrimFrame(flavor: Flavor, s: string, i: nat, n: nat)
    requires i <= |s| && AllSpace(flavor, s[..i]) && (i < |s| ==> !IsSpace(flavor, s[i]))
    requires n <= |s| - i && AllSpace(flavor, s[i..][n..]) && (n > 0 ==> !IsSpace(flavor, s[i..][n - 1]))
    ensures IsTrimmed(flavor, s[i..i + n])
    ensures exists j | 0 <= j <= |s| - n ::
              && s[i..i + n] == s[j..j + n]
              && AllSpace(flavor, s[..j])
              && AllSpace(flavor, s[j + n..])
  {
    assert s[i + n..] == s[i..][n..];
    if n > 0 {
      assert s[i..i + n][0] == s[i];
      assert s[i..i + n][n - 1] == s[i..][n - 1];
    }
  }

  /** A trimmed string with one space on each side strips back to itself. */
  lemma TrimSpaced(flavor: Flavor, core: string)
    requires |core| > 0 && IsTrimmed(flavor, core)
    ensures Trim(flavor, " " + core + " ") == core
  {
    var s := " " + core + " ";
    var t := s[1..];
    assert t == core + " " && t[0] == core[0];
    assert LeadingSpaces(flavor, t) == 0;
    assert LeadingSpaces(flavor, s) == 1;
    assert t[..|t| - 1] == core;
    TrimOfTrimmed(flavor, core);
    assert TrailingStart(flavor, core) == |core|;
    assert TrailingStart(flavor, t) == |core|;
    assert s[1..1 + |core|] == core;
  }

  /** Stripping leaves nothing exactly when the string is all whitespace. */
  lemma TrimEmptyIff(flavor: Flavor, s: string)
    ensures Trim(flavor, s) == [] <==> AllSpace(flavor, s)
  {
    var i := LeadingSpaces(flavor, s);
    var n := TrailingStart(flavor, s[i..]);
    assert Trim(flavor, s) == s[i..i + n];
    if n == 0 {
      forall k | 0 <= k < |s| ensures IsSpace(flavor, s[k]) {
        assert s[k] == s[..i][k];
      }
    } else {
      assert s[i] == s[i..][0];
      assert !IsSpace(flavor, s[i]);
    }
  }

  /** A string with no whitespace at either end is its own strip. */
  lemma TrimOfTrimmed(flavor: Flavor, s: string)
    requires IsTrimmed(flavor, s)
    ensures Trim(flavor, s) == s
  {
    assert LeadingSpaces(flavor, s) == 0;
    assert s[0..] == s;
    assert TrailingStart(flavor, s) == |s|;
  }

  /** Stripping twice is stripping once. */
  lemma TrimIdempotent(flavor: Flavor, s: string)
    ensures Trim(flavor, Trim(flavor, s)) == Trim(flavor, s)
  {
    TrimOfTrimmed(flavor, Trim(flavor, s));
  }

  /** `sep.join(pieces)`. */
  function Join(pieces: seq<string>, sep: char): string {
    if |pieces| == 0 then ""
    else if |pieces| == 1 then pieces[0]
    else pieces[0] + [sep] + Join(pieces[1..], sep)
  }

  /** Three pieces joined: the separator sits between each pair. */
  lemma JoinThree(a: string, b: string, c: string, sep: char)
    ensures Join([a, b, c], sep) == a + ([sep] + b + ([sep] + c))
  {
    assert [a, b, c][1..] == [b, c];
    assert [b, c][1..] == [c];
    assert Join([b, c], sep) == b + [sep] + c;
    assert Join([a, b, c], sep) == a + [sep] + (b + [sep] + c);
  }

  /** Python `s.split(sep)` for a one-character separator: the maximal
      separator-free pieces, at least one, which join back to `s`. */
  function Split(s: string, sep: char): (pieces: seq<string>)
    ensures |pieces| >= 1
    ensures forall k | 0 <= k < |pieces| :: sep !in pieces[k]
    ensures Join(pieces, sep) == s
  {
    if |s| == 0 then [""]
    else
      var rest := Split(s[1..], sep);
      if s[0] == sep then
        assert ([""] + rest)[1..] == rest;
        [""] + rest
      else
        var pieces := [[s[0]] + rest[0]] + rest[1..];
        assert pieces[1..] == rest[1..];
        assert sep !in pieces[0];
        pieces
  }

  /** A separator-free string splits into itself. */
  lemma {:induction false} SplitNoSeparator(p: string, sep: char)
    requires sep !in p
    ensures Split(p, sep) == [p]
  {
    if |p| > 0 {
      assert sep !in p[1..];
      SplitNoSeparator(p[1..], sep);
      assert [p[0]] + p[1..] == p;
    }
  }

  /** Splitting at the first separator. */
  lemma {:induction false} SplitAfterPiece(p: string, sep: char, t: string)
    requires sep !in p
    ensures Split(p + [sep] + t, sep) == [p] + Split(t, sep)
  {
    if |p| == 0 {
      assert p + [sep] + t == [sep] + t;
      assert ([sep] + t)[1..] == t;
    } else {
      var s := p + [sep] + t;
      assert s[0] == p[0] && s[0] != sep;
      assert s[1..] == p[1..] + [sep] + t;
      assert sep !in p[1..];
      SplitAfterPiece(p[1..], sep, t);
      var rest := Split(s[1..], sep);
      assert rest[0] == p[1..] && rest[1..] == Split(t, sep);
      assert [s[0]] + rest[0] == p;
    }
  }

  /** Split undoes Join when no piece contains the separator. */
  lemma {:induction false} SplitJoin(pieces: seq<string>, sep: char)
    requires |pieces| >= 1
    requires forall k | 0 <= k < |pieces| :: sep !in pieces[k]
    ensures Split(Join(pieces, sep), sep) == pieces
  {
    if |pieces| == 1 {
      SplitNoSeparator(pieces[0], sep);
    } else {
      SplitJoin(pieces[1..], sep);
      SplitAfterPiece(pieces[0], sep, Join(pieces[1..], sep));
      assert [pieces[0]] + pieces[1..] == pieces;
    }
  }

  predicate IsDigit(c: char) {
    '0' <= c <= '9'
  }

  predicate AllDigits(s: string) {
    forall k | 0 <= k < |s| :: IsDigit(s[k])
  }

  function DigitChar(d: int): (c: char)
    requires 0 <= d <= 9
    ensures IsDigit(c) && c as int - '0' as int == d
  {
    ('0' as int + d) as char
  }

  /** The number a string of decimal digits denotes (leading zeros allowed). */
  function DecimalValue(s: string): nat
    requires AllDigits(s)
  {
    if |s| == 0 then 0
    else DecimalValue(s[..|s| - 1]) * 10 + (s[|s| - 1] as int - '0' as int)
  }

  function Pow10(k: nat): (p: nat)
    ensures p >= 1
  {
    if k == 0 then 1 else 10 * Pow10(k - 1)
  }

  /** Python `str(n)` / JavaScript `String(n)` for a non-negative integer:
      decimal digits without leading zeros, denoting `n`, as short as `n` allows. */
  function NatToString(n: nat): (r: string)
    ensures |r| >= 1 && AllDigits(r)
    ensures DecimalValue(r) == n
    ensures r[0] == '0' ==> n == 0
    ensures n < Pow10(|r|) && (|r| > 1 ==> Pow10(|r| - 1) <= n)
  {
    if n < 10 then [DigitChar(n)]
    else
      var r := NatToString(n / 10) + [DigitChar(n % 10)];
      assert r[..|r| - 1] == NatToString(n / 10);
      r
  }

  /** The digit count of `n` is at most `k` exactly when `n < 10^k`. */
  lemma NatToStringWidth(n: nat, k: nat)
    ensures k >= 1 ==> (|NatToString(n)| <= k <==> n < Pow10(k))
  {
    var r := NatToString(n);
    if k == 0 {
    } else if |r| <= k {
      Pow10Monotone(|r|, k);
    } else {
      Pow10Monotone(k, |r| - 1);
    }
  }

  lemma {:induction false} Pow10Monotone(i: nat, j: nat)
    requires i <= j
    ensures Pow10(i) <= Pow10(j)
  {
    if i < j {
      Pow10Monotone(i, j - 1);
    }
  }

  /** JavaScript `s.padStart(width, fill)` with a one-character fill. */
  function PadStart(s: string, width: nat, fill: char): (r: string)
    ensures |r| == if |s| >= width then |s| else width
    ensures r[|r| - |s|..] == s
    ensures forall k | 0 <= k < |r| - |s| :: r[k] == fill
  {
    if |s| >= width then s else seq(width - |s|, _ => fill) + s
  }

  /** Leading zeros do not change the value of a digit string. */
  lemma {:induction false} LeadingZerosValue(z: nat, s: string)
    requires AllDigits(s)
    ensures AllDigits(seq(z, _ => '0') + s)
    ensures DecimalValue(seq(z, _ => '0') + s) == DecimalValue(s)
  {
    var t := seq(z, _ => '0') + s;
    if |s| == 0 {
      assert t == seq(z, _ => '0');
      ZerosValue(z);
    } else {
      LeadingZerosValue(z, s[..|s| - 1]);
      assert t[..|t| - 1] == seq(z, _ => '0') + s[..|s| - 1];
    }
  }

  lemma {:induction false} ZerosValue(z: nat)
    ensures AllDigits(seq(z, _ => '0'))
    ensures DecimalValue(seq(z, _ => '0')) == 0
  {
    if z > 0 {
      ZerosValue(z - 1);
      assert seq(z, _ => '0')[..z - 1] == seq(z - 1, _ => '0');
    }
  }

  /** `String(n).padStart(width, "0")`: digits denoting `n`, at least `width` long,
      exactly `width` long when `n < 10^width`. */
  function ZeroPad(n: nat, width: nat): (r: string)
    ensures AllDigits(r) && DecimalValue(r) == n
    ensures |r| >= width && |r| >= 1
    ensures width >= 1 && n < Pow10(width) ==> |r| == width
    ensures n >= Pow10(width) ==> r == NatToString(n)
  {
    var d := NatToString(n);
    NatToStringWidth(n, width);
    if |d| >= width then d
    else
      LeadingZerosValue(width - |d|, d);
      PadStart(d, width, '0')
  }

  /** Python's `<` on `str` (and Postgres text order under the C collation):
      lexicographic by code point, a proper prefix sorting first. */
  predicate StrLt(a: string, b: string) {
    if |a| == 0 then |b| > 0
    else if |b| == 0 then false
    else if a[0] != b[0] then a[0] < b[0]
    else StrLt(a[1..], b[1..])
  }

  lemma {:induction false} StrLtIrreflexive(a: string)
    ensures !StrLt(a, a)
  {
    if |a| > 0 {
      StrLtIrreflexive(a[1..]);
    }
  }

  lemma {:induction false} StrLtTrichotomy(a: string, b: string)
    ensures a == b || StrLt(a, b) || StrLt(b, a)
    ensures !(StrLt(a, b) && StrLt(b, a))
  {
    if |a| > 0 && |b| > 0 && a[0] == b[0] {
      StrLtTrichotomy(a[1..], b[1..]);
      if a[1..] == b[1..] {
        assert a == [a[0]] + a[1..] && b == [b[0]] + b[1..];
      }
    }
  }

  lemma {:induction false} StrLtTransitive(a: string, b: string, c: string)
    requires StrLt(a, b) && StrLt(b, c)
    ensures StrLt(a, c)
  {
    if |a| > 0 && a[0] == b[0] && b[0] == c[0] {
      StrLtTransitive(a[1..], b[1..], c[1..]);
    }
  }

  /** Equal-length heads decide the order before the tails are looked at. */
  lemma {:induction false} StrLtConcat(a: string, x: string, b: string, y: string)
    requires |a| == |b|
    ensures StrLt(a + x, b + y) <==> StrLt(a, b) || (a == b && StrLt(x, y))
  {
    if |a| > 0 {
      assert (a + x)[1..] == a[1..] + x;
      assert (b + y)[1..] == b[1..] + y;
      StrLtConcat(a[1..], x, b[1..], y);
      if a[0] == b[0] && a[1..] == b[1..] {
        assert a == [a[0]] + a[1..] && b == [b[0]] + b[1..];
      }
    } else {
      assert a + x == x && b + y == y;
    }
  }

  /** Digit strings of one length compare as the numbers they denote. */
  lemma {:induction false} DigitsOrder(a: string, b: string)
    requires |a| == |b| && AllDigits(a) && AllDigits(b)
    ensures StrLt(a, b) <==> DecimalValue(a) < DecimalValue(b)
    ensures a == b <==> DecimalValue(a) == DecimalValue(b)
  {
    if |a| > 0 {
      var n := |a| - 1;
      var a', b' := a[..n], b[..n];
      DigitsOrder(a', b');
      assert a == a' + [a[n]] && b == b' + [b[n]];
      StrLtConcat(a', [a[n]], b', [b[n]]);
      var c, d := a[n] as int - '0' as int, b[n] as int - '0' as int;
      assert 0 <= c <= 9 && 0 <= d <= 9;
      assert DecimalValue(a) == DecimalValue(a') * 10 + c;
      assert DecimalValue(b) == DecimalValue(b') * 10 + d;
      if DecimalValue(a') < DecimalValue(b') {
        assert DecimalValue(a') * 10 + 10 <= DecimalValue(b') * 10;
      } else if DecimalValue(a') > DecimalValue(b') {
        assert DecimalValue(b') * 10 + 10 <= DecimalValue(a') * 10;
        StrLtTrichotomy(a', b');
      }
    }
  }
}
