/**
 * The few functions of Go's `strings`, `unicode`, `strconv` and `fmt` packages that the Nagios
 * prober relies on, stated over strings of characters. Separators are single characters, as
 * they are at every call site in prober/nagios.go.
 */
module GoStrings {
  import opened Wrappers

  type String = seq<char>

  /** strings.HasPrefix. */
  predicate HasPrefix(s: String, prefix: String)
  {
    |prefix| <= |s| && s[..|prefix|] == prefix
  }

  /** strings.Index for a character that occurs in s: its first position. */
  function IndexOf(s: String, c: char): (i: nat)
    requires c in s
    ensures i < |s| && s[i] == c && c !in s[..i]
  {
    if s[0] == c then 0
    else
      var j := IndexOf(s[1..], c);
      assert s[..j + 1] == [s[0]] + s[1..][..j];
      j + 1
  }

  lemma {:induction false} IndexOfAfter(a: String, c: char, b: String)
    requires c !in a
    ensures c in a + [c] + b && IndexOf(a + [c] + b, c) == |a|
  {
    var s := a + [c] + b;
    assert s[|a|] == c;
    if a != [] {
      assert s[1..] == a[1..] + [c] + b;
      IndexOfAfter(a[1..], c, b);
    }
  }

  /** strings.Join with a one-character separator. */
  function Join(parts: seq<String>, sep: char): String
  {
    if |parts| == 0 then []
    else if |parts| == 1 then parts[0]
    else parts[0] + [sep] + Join(parts[1..], sep)
  }

  /**
   * strings.Split with a one-character separator: the pieces between consecutive separators, in
   * order; a string without the separator (the empty string included) is one piece.
   */
  function Split(s: String, sep: char): (parts: seq<String>)
    ensures |parts| >= 1
    ensures forall k | 0 <= k < |parts| :: sep !in parts[k]
    ensures Join(parts, sep) == s
    decreases |s|
  {
    if sep !in s then [s]
    else
      var i := IndexOf(s, sep);
      assert s == s[..i] + [sep] + s[i + 1..];
      [s[..i]] + Split(s[i + 1..], sep)
  }

  /** Every character of a piece is in the joined string. */
  lemma {:induction false} PieceInJoin(parts: seq<String>, sep: char, k: nat)
    requires k < |parts|
    ensures forall c | c in parts[k] :: c in Join(parts, sep)
    decreases k
  {
    if k > 0 {
      PieceInJoin(parts[1..], sep, k - 1);
    }
  }

  /** Splitting is the inverse of joining pieces that do not hold the separator. */
  lemma {:induction false} SplitJoin(parts: seq<String>, sep: char)
    requires |parts| >= 1
    requires forall k | 0 <= k < |parts| :: sep !in parts[k]
    ensures Split(Join(parts, sep), sep) == parts
  {
    if |parts| > 1 {
      var rest := Join(parts[1..], sep);
      IndexOfAfter(parts[0], sep, rest);
      var s := parts[0] + [sep] + rest;
      assert s[..|parts[0]|] == parts[0];
      assert s[|parts[0]| + 1..] == rest;
      SplitJoin(parts[1..], sep);
    }
  }

  /** There is one piece more than there are separators. */
  lemma {:induction false} SplitCount(s: String, sep: char)
    ensures |Split(s, sep)| == multiset(s)[sep] + 1
    decreases |s|
  {
    if sep in s {
      var i := IndexOf(s, sep);
      assert s == s[..i] + [sep] + s[i + 1..];
      assert multiset(s)[sep] == multiset(s[..i])[sep] + 1 + multiset(s[i + 1..])[sep];
      SplitCount(s[i + 1..], sep);
    }
  }

  /** strings.SplitN(s, sep, 2): s cut at its first separator, or s alone when it has none. */
  function Cut(s: String, sep: char): (parts: seq<String>)
    ensures sep !in s ==> parts == [s]
    ensures sep in s ==> |parts| == 2 && sep !in parts[0] && parts[0] + [sep] + parts[1] == s
  {
    if sep in s then
      var i := IndexOf(s, sep);
      assert s == s[..i] + [sep] + s[i + 1..];
      [s[..i], s[i + 1..]]
    else [s]
  }

  /** Cutting at the first separator takes everything before it and everything after it. */
  lemma CutAt(a: String, sep: char, b: String)
    requires sep !in a
    ensures Cut(a + [sep] + b, sep) == [a, b]
  {
    IndexOfAfter(a, sep, b);
    var s := a + [sep] + b;
    assert s[..|a|] == a && s[|a| + 1..] == b;
  }

  /** unicode.IsSpace: the characters with Unicode's White_Space property. */
  predicate IsSpace(c: char)
  {
    ('\t' <= c <= '\r') || c == ' ' || c == '\U{85}' || c == '\U{A0}' || c == '\U{1680}'
    || ('\U{2000}' <= c <= '\U{200A}') || c == '\U{2028}' || c == '\U{2029}'
    || c == '\U{202F}' || c == '\U{205F}' || c == '\U{3000}'
  }

  /** The first index from i on whose character is kept, or |s| when all are dropped. */
  function KeptFrom(s: String, drop: char -> bool, i: nat): (r: nat)
    requires i <= |s|
    ensures i <= r <= |s|
    ensures forall k | i <= k < r :: drop(s[k])
    ensures r < |s| ==> !drop(s[r])
    decreases |s| - i
  {
    if i < |s| && drop(s[i]) then KeptFrom(s, drop, i + 1) else i
  }

  /** The end of the last kept character before j, or 0 when all before j are dropped. */
  function KeptUntil(s: String, drop: char -> bool, j: nat): (r: nat)
    requires j <= |s|
    ensures r <= j
    ensures forall k | r <= k < j :: drop(s[k])
    ensures r > 0 ==> !drop(s[r - 1])
    decreases j
  {
    if j > 0 && drop(s[j - 1]) then KeptUntil(s, drop, j - 1) else j
  }

  /**
   * strings.TrimFunc: s without its leading and trailing run of characters satisfying drop.
   * The result is empty exactly when every character is dropped, keeps only characters of s,
   * starts and ends with a kept character, and leaves a string with kept ends unchanged.
   */
  function TrimFunc(s: String, drop: char -> bool): (r: String)
    ensures |r| <= |s|
    ensures forall c | c in r :: c in s
    ensures r == [] <==> forall k | 0 <= k < |s| :: drop(s[k])
    ensures r != [] ==> !drop(r[0]) && !drop(r[|r| - 1])
    ensures s == [] || (!drop(s[0]) && !drop(s[|s| - 1])) ==> r == s
    ensures exists i, j | 0 <= i <= j <= |s| ::
      r == s[i..j] && (forall k | 0 <= k < i :: drop(s[k])) && (forall k | j <= k < |s| :: drop(s[k]))
  {
    var i := KeptFrom(s, drop, 0);
    if i == |s| then
      assert s[i..i] == [];
      []
    else
      var j := KeptUntil(s, drop, |s|);
      assert !drop(s[i]);
      assert i < j;
      var r := s[i..j];
      assert r[0] == s[i] && r[|r| - 1] == s[j - 1];
      assert forall c | c in r :: c in s by {
        forall c | c in r ensures c in s {
          var k :| 0 <= k < |r| && r[k] == c;
          assert s[i + k] == c;
        }
      }
      r
  }

  /** TrimFunc keeps exactly s[lo..hi] when everything outside is dropped and both its ends are kept. */
  lemma TrimFuncWithin(s: String, lo: nat, hi: nat, drop: char -> bool)
    requires lo < hi <= |s|
    requires forall k | 0 <= k < lo :: drop(s[k])
    requires forall k | hi <= k < |s| :: drop(s[k])
    requires !drop(s[lo]) && !drop(s[hi - 1])
    ensures TrimFunc(s, drop) == s[lo..hi]
  {
    var i := KeptFrom(s, drop, 0);
    var j := KeptUntil(s, drop, |s|);
    assert i == lo;
    assert j == hi;
  }

  /**
   * What TrimFunc removes is exactly the dropped ends: a string made of a dropped prefix, a middle
   * that is empty or starts and ends with kept characters, and a dropped suffix trims to the middle.
   */
  lemma TrimFuncOf(a: String, m: String, b: String, drop: char -> bool)
    requires forall k | 0 <= k < |a| :: drop(a[k])
    requires forall k | 0 <= k < |b| :: drop(b[k])
    requires m == [] || (!drop(m[0]) && !drop(m[|m| - 1]))
    ensures TrimFunc(a + m + b, drop) == m
  {
    var s := a + m + b;
    var lo, hi := |a|, |a| + |m|;
    forall k | 0 <= k < lo ensures drop(s[k]) {
      assert s[k] == a[k];
    }
    forall k | hi <= k < |s| ensures drop(s[k]) {
      assert s[k] == b[k - hi];
    }
    if m == [] {
      assert forall k | 0 <= k < |s| :: drop(s[k]);
    } else {
      assert s[lo] == m[0] && s[hi - 1] == m[|m| - 1];
      TrimFuncWithin(s, lo, hi, drop);
      assert s[lo..hi] == m;
    }
  }

  /** strings.TrimSpace. */
  function TrimSpace(s: String): String
  {
    TrimFunc(s, IsSpace)
  }

  predicate IsDollar(c: char)
  {
    c == '$'
  }

  /** strings.Trim(s, "$"): s without its leading and trailing dollar signs. */
  function TrimDollars(s: String): String
  {
    TrimFunc(s, IsDollar)
  }

  predicate IsUpperAscii(c: char)
  {
    'A' <= c <= 'Z'
  }

  function LowerAscii(c: char): char
  {
    if IsUpperAscii(c) then (c as int + 32) as char else c
  }

  /**
   * strings.ToLower, for ASCII letters: every upper-case letter becomes its lower-case letter and
   * every other character stays, so no upper-case ASCII letter is left.
   */
  function ToLower(s: String): (r: String)
    ensures |r| == |s|
    ensures forall k | 0 <= k < |r| :: !IsUpperAscii(r[k])
    ensures forall k | 0 <= k < |s| :: !IsUpperAscii(s[k]) ==> r[k] == s[k]
    ensures forall k | 0 <= k < |s| :: IsUpperAscii(s[k]) ==> r[k] as int == s[k] as int + 32
  {
    seq(|s|, k requires 0 <= k < |s| => LowerAscii(s[k]))
  }

  predicate IsDigit(c: char)
  {
    '0' <= c <= '9'
  }

  predicate AllDigits(s: String)
  {
    forall k | 0 <= k < |s| :: IsDigit(s[k])
  }

  function DigitValue(c: char): nat
    requires IsDigit(c)
  {
    c as int - '0' as int
  }

  function DigitChar(d: nat): (c: char)
    requires d < 10
    ensures IsDigit(c) && DigitValue(c) == d
  {
    ('0' as int + d) as char
  }

  /** The value of a string of decimal digits, the empty string counting as 0. */
  function DecimalValue(s: String): nat
    requires AllDigits(s)
  {
    if s == [] then 0 else DecimalValue(s[..|s| - 1]) * 10 + DigitValue(s[|s| - 1])
  }

  /** The decimal digits of n without leading zeros, as fmt prints a non-negative int. */
  function NatToDecimal(n: nat): (r: String)
    ensures |r| >= 1 && AllDigits(r)
    ensures DecimalValue(r) == n
    decreases n
  {
    if n < 10 then [DigitChar(n)]
    else
      var r := NatToDecimal(n / 10) + [DigitChar(n % 10)];
      assert r[..|r| - 1] == NatToDecimal(n / 10);
      r
  }

  /** strconv.Atoi on an optional minus sign followed by decimal digits. */
  function ParseInt(s: String): Option<int>
  {
    if |s| > 1 && s[0] == '-' && AllDigits(s[1..]) then Some(-(DecimalValue(s[1..]) as int))
    else if |s| > 0 && AllDigits(s) then Some(DecimalValue(s) as int)
    else None
  }

  /** fmt's %v of an int: a minus sign for a negative number, then its digits; it parses back to n. */
  function IntToDecimal(n: int): (r: String)
    ensures ParseInt(r) == Some(n)
  {
    if n < 0 then
      var r := "-" + NatToDecimal(-n);
      assert r[1..] == NatToDecimal(-n);
      r
    else NatToDecimal(n)
  }

  function Pow10(n: nat): (p: nat)
    ensures p >= 1
  {
    if n == 0 then 1 else 10 * Pow10(n - 1)
  }

  predicate IsNumeric(c: char)
  {
    IsDigit(c) || c == '.'
  }

  /**
   * strconv.ParseFloat(s, 64) on a string made only of digits and dots, with the decimal value
   * read exactly; ParseDecimalSyntax says which strings it accepts.
   */
  function ParseDecimal(s: String): (r: Option<real>)
    requires forall k | 0 <= k < |s| :: IsNumeric(s[k])
    ensures r.Some? ==> r.value >= 0.0
  {
    if '.' !in s then
      if s == [] then None
      else
        DigitsWithoutDot(s);
        Some(DecimalValue(s) as real)
    else
      var i := IndexOf(s, '.');
      var whole, frac := s[..i], s[i + 1..];
      if '.' in frac || (whole == [] && frac == []) then None
      else
        DigitsWithoutDot(whole);
        DigitsWithoutDot(frac);
        Some(DecimalValue(whole) as real + Fraction(DecimalValue(frac), Pow10(|frac|)))
  }

  /** The digits after the dot, scaled down by a power of ten: digits / scale. */
  function Fraction(digits: nat, scale: nat): (r: real)
    requires scale >= 1
    ensures r >= 0.0
  {
    digits as real / scale as real
  }

  /** The decimal digits of n read back as n. */
  lemma ParseDecimalNat(n: nat)
    ensures forall k | 0 <= k < |NatToDecimal(n)| :: IsNumeric(NatToDecimal(n)[k])
    ensures ParseDecimal(NatToDecimal(n)) == Some(n as real)
  {
    var s := NatToDecimal(n);
    assert '.' !in s by {
      forall k | 0 <= k < |s| ensures s[k] != '.' {
        assert IsDigit(s[k]);
      }
    }
  }

  /** The shape of `<whole>.<frac>`: digits and one dot, which separates whole from frac. */
  lemma DecimalPointParts(w: String, frac: String)
    requires AllDigits(w) && AllDigits(frac)
    ensures var s := w + "." + frac;
      && (forall k | 0 <= k < |s| :: IsNumeric(s[k]))
      && '.' !in w && '.' !in frac && '.' in s && IndexOf(s, '.') == |w|
      && s[..|w|] == w && s[|w| + 1..] == frac
  {
    var s := w + "." + frac;
    assert '.' !in w by {
      forall k | 0 <= k < |w| ensures w[k] != '.' {
        assert IsDigit(w[k]);
      }
    }
    assert '.' !in frac by {
      forall k | 0 <= k < |frac| ensures frac[k] != '.' {
        assert IsDigit(frac[k]);
      }
    }
    forall k | 0 <= k < |s| ensures IsNumeric(s[k]) {
      if k < |w| {
        assert s[k] == w[k];
      } else if k > |w| {
        assert s[k] == frac[k - |w| - 1];
      }
    }
    IndexOfAfter(w, '.', frac);
    assert s[..|w|] == w && s[|w| + 1..] == frac;
  }

  /** `<whole>.<frac>` reads as whole plus frac scaled down by a power of ten per digit. */
  lemma ParseDecimalFraction(whole: nat, frac: String)
    requires AllDigits(frac)
    ensures var s := NatToDecimal(whole) + "." + frac;
      && (forall k | 0 <= k < |s| :: IsNumeric(s[k]))
      && ParseDecimal(s) == Some(whole as real + Fraction(DecimalValue(frac), Pow10(|frac|)))
  {
    var w := NatToDecimal(whole);
    DecimalPointParts(w, frac);
    assert DecimalValue(w) == whole;
  }

  /**
   * The float parser the model instantiates: exact on strings of digits and dots (the only strings
   * the prober hands to strconv.ParseFloat, see NagiosPerfData.ValueText) and None on any other.
   */
  function DecimalParser(s: String): (r: Option<real>)
    ensures r.Some? ==> r.value >= 0.0 && forall k | 0 <= k < |s| :: IsNumeric(s[k])
    ensures r.Some? <==> (forall k | 0 <= k < |s| :: IsNumeric(s[k])) && ParseDecimal(s).Some?
  {
    if forall k | 0 <= k < |s| :: IsNumeric(s[k]) then ParseDecimal(s) else None
  }

  /** A string of digits and dots parses exactly when it holds at most one dot and at least one digit. */
  lemma ParseDecimalSyntax(s: String)
    requires forall k | 0 <= k < |s| :: IsNumeric(s[k])
    ensures ParseDecimal(s).Some? <==> multiset(s)['.'] <= 1 && exists k | 0 <= k < |s| :: IsDigit(s[k])
  {
    if '.' !in s {
      if s != [] {
        assert s[0] in s;
      }
    } else {
      var i := IndexOf(s, '.');
      var whole, frac := s[..i], s[i + 1..];
      assert s == whole + ['.'] + frac;
      assert multiset(s)['.'] == multiset(whole)['.'] + 1 + multiset(frac)['.'];
      if '.' !in frac {
        DigitsWithoutDot(whole);
        DigitsWithoutDot(frac);
        if whole != [] {
          assert s[0] == whole[0];
        } else if frac != [] {
          assert s[i + 1] == frac[0];
        } else {
          assert forall k | 0 <= k < |s| :: s[k] == '.';
        }
      }
    }
  }

  lemma DigitsWithoutDot(s: String)
    requires forall k | 0 <= k < |s| :: IsNumeric(s[k])
    requires '.' !in s
    ensures AllDigits(s)
  {
    forall k | 0 <= k < |s| ensures IsDigit(s[k]) {
      assert s[k] in s;
    }
  }
}
