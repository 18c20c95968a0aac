/** Strings as the programs handle them: separators, replacement and decimal numerals. */
module Text {

  const NUL: char := '\0'

  /** The pieces of `s` between occurrences of `sep`; always at least one, possibly empty. */
  function Split(s: string, sep: char): (ps: seq<string>)
    ensures |ps| >= 1
    decreases |s|
  {
    if |s| == 0 then [""]
    else
      var rest := Split(s[1..], sep);
      if s[0] == sep then [""] + rest else [[s[0]] + rest[0]] + rest[1..]
  }

  /** The pieces written one after the other with `sep` between two of them. */
  function Join(ps: seq<string>, sep: char): string
    decreases |ps|
  {
    if |ps| == 0 then ""
    else if |ps| == 1 then ps[0]
    else ps[0] + [sep] + Join(ps[1..], sep)
  }

  /** `s` with every `a` replaced by `b`. */
  function Replace(s: string, a: char, b: char): (r: string)
    ensures |r| == |s|
    ensures forall i :: 0 <= i < |s| ==> r[i] == if s[i] == a then b else s[i]
  {
    seq(|s|, i requires 0 <= i < |s| => if s[i] == a then b else s[i])
  }

  /** A piece without separator, then a separator, starts a split. */
  lemma {:induction false} SplitPiece(p: string, sep: char, rest: string)
    requires sep !in p
    ensures Split(p + [sep] + rest, sep) == [p] + Split(rest, sep)
    decreases |p|
  {
    var s := p + [sep] + rest;
    if |p| == 0 {
      assert s[1..] == rest;
    } else {
      assert s[1..] == p[1..] + [sep] + rest;
      SplitPiece(p[1..], sep, rest);
      assert [p[0]] + p[1..] == p;
    }
  }

  /** The same, at the first occurrence of the separator. */
  lemma SplitAt(t: string, k: nat, sep: char)
    requires k < |t| && t[k] == sep && forall i :: 0 <= i < k ==> t[i] != sep
    ensures Split(t, sep) == [t[..k]] + Split(t[k + 1..], sep)
  {
    assert t == t[..k] + [sep] + t[k + 1..];
    SplitPiece(t[..k], sep, t[k + 1..]);
  }

  /** A text without separator is its own only piece. */
  lemma {:induction false} SplitNone(p: string, sep: char)
    requires sep !in p
    ensures Split(p, sep) == [p]
    decreases |p|
  {
    if |p| != 0 {
      SplitNone(p[1..], sep);
      assert [p[0]] + p[1..] == p;
    }
  }

  /** Splitting undoes joining. */
  lemma {:induction false} SplitJoin(ps: seq<string>, sep: char)
    requires |ps| >= 1
    requires forall i :: 0 <= i < |ps| ==> sep !in ps[i]
    ensures Split(Join(ps, sep), sep) == ps
    decreases |ps|
  {
    if |ps| == 1 {
      SplitNone(ps[0], sep);
    } else {
      SplitJoin(ps[1..], sep);
      SplitPiece(ps[0], sep, Join(ps[1..], sep));
    }
  }

  /** The pieces of a split hold no separator, and joining them gives the text back. */
  lemma {:induction false} JoinSplit(s: string, sep: char)
    ensures Join(Split(s, sep), sep) == s
    ensures forall i :: 0 <= i < |Split(s, sep)| ==> sep !in Split(s, sep)[i]
    decreases |s|
  {
    if |s| != 0 {
      JoinSplit(s[1..], sep);
      var rest := Split(s[1..], sep);
      var ps := Split(s, sep);
      if s[0] == sep {
        assert ps[1..] == rest;
        assert "" + [sep] + s[1..] == s;
      } else {
        assert ps[1..] == rest[1..];
        assert Join(ps, sep) == [s[0]] + Join(rest, sep);
      }
    }
  }

  /** Splitting a text at a separator splits it around the separator. */
  lemma {:induction false} SplitConcat(a: string, b: string, sep: char)
    ensures Split(a + [sep] + b, sep) == Split(a, sep) + Split(b, sep)
    decreases |a|
  {
    var s := a + [sep] + b;
    if |a| == 0 {
      assert s[1..] == b;
    } else {
      assert s[1..] == a[1..] + [sep] + b;
      SplitConcat(a[1..], b, sep);
    }
  }

  /** Replacing one separator by another that did not occur keeps the pieces. */
  lemma {:induction false} SplitReplace(s: string, a: char, b: char)
    requires b !in s
    ensures Split(Replace(s, a, b), b) == Split(s, a)
    decreases |s|
  {
    var r := Replace(s, a, b);
    if |s| != 0 {
      assert r[1..] == Replace(s[1..], a, b);
      SplitReplace(s[1..], a, b);
    }
  }

  // ----- C strings -----

  /** strlen: the index of the first NUL, or the length when there is none. */
  function StrLen(s: seq<char>): (n: nat)
    ensures n <= |s|
    ensures forall i :: 0 <= i < n ==> s[i] != NUL
    ensures n < |s| ==> s[n] == NUL
  {
    if |s| == 0 || s[0] == NUL then 0 else 1 + StrLen(s[1..])
  }

  /** The text a NUL-terminated buffer holds. */
  function CStr(s: seq<char>): string { s[..StrLen(s)] }

  /** The part of a text that snprintf writes into a buffer of `size` characters, its NUL aside. */
  function Clip(s: string, size: nat): (r: string)
    requires size > 0
    ensures |r| < size && r <= s
  {
    if |s| < size then s else s[..size - 1]
  }

  // ----- decimal numerals -----

  function DigitChar(d: nat): (c: char)
    requires d < 10
    ensures '0' <= c <= '9'
    ensures c as int - '0' as int == d
  {
    (('0' as int) + d) as char
  }

  predicate IsDigit(c: char) { '0' <= c <= '9' }

  /** Decimal form of a natural number, no leading zero. */
  function Decimal(n: nat): (s: string)
    ensures |s| >= 1 && forall i :: 0 <= i < |s| ==> IsDigit(s[i])
    decreases n
  {
    if n < 10 then [DigitChar(n)] else Decimal(n / 10) + [DigitChar(n % 10)]
  }

  /** What printf writes for %d and %ld. */
  function DecimalInt(n: int): (s: string)
    ensures |s| >= 1
  {
    if n >= 0 then Decimal(n) else "-" + Decimal(-n)
  }

  /** The number a digit string denotes (atoi on digits). */
  function Parse(s: string): nat
    requires forall i :: 0 <= i < |s| ==> IsDigit(s[i])
    decreases |s|
  {
    if |s| == 0 then 0
    else
      assert IsDigit(s[|s| - 1]);
      10 * Parse(s[..|s| - 1]) + (s[|s| - 1] as int - '0' as int)
  }

  /** Reading a numeral back gives the number. */
  lemma {:induction false} ParseDecimal(n: nat)
    ensures Parse(Decimal(n)) == n
    decreases n
  {
    var s := Decimal(n);
    if n < 10 {
      assert s[..0] == "";
    } else {
      ParseDecimal(n / 10);
      assert s[..|s| - 1] == Decimal(n / 10);
    }
  }

  /** The first digit is the one with the greatest weight. */
  lemma {:induction false} FirstDigitWeight(s: string)
    requires |s| >= 1 && forall i :: 0 <= i < |s| ==> IsDigit(s[i])
    ensures Parse(s) == (s[0] as int - '0' as int) * Pow10(|s| - 1) + Parse(s[1..])
    decreases |s|
  {
    if |s| > 1 {
      var init, last := s[..|s| - 1], s[|s| - 1] as int - '0' as int;
      var d, p := s[0] as int - '0' as int, Pow10(|s| - 2);
      FirstDigitWeight(init);
      assert s[1..][..|s| - 2] == init[1..];
      assert Parse(s[1..]) == 10 * Parse(init[1..]) + last;
      TenTimes(d, p);
      assert Parse(s) == 10 * Parse(init) + last;
    } else {
      assert s[..0] == "" && Pow10(0) == 1;
    }
  }

  lemma TenTimes(d: int, p: int)
    ensures 10 * (d * p) == d * (10 * p)
  {
  }

  /** A numeral of more than one digit does not start with 0. */
  lemma {:induction false} NoLeadingZero(n: nat)
    ensures n >= 1 ==> Decimal(n)[0] != '0'
    decreases n
  {
    if n >= 10 { NoLeadingZero(n / 10); }
  }

  lemma Decimal120()
    ensures Decimal(120) == "120" && Parse("120") == 120 && DecimalInt(-7) == "-7"
  {
    assert Decimal(1) == "1" && Decimal(12) == "12";
    ParseDecimal(120);
  }

  function Pow10(k: nat): nat { if k == 0 then 1 else 10 * Pow10(k - 1) }

  /** A number has at most k digits exactly when it is below 10^k. */
  lemma {:induction false} DecimalLength(n: nat, k: nat)
    requires k >= 1
    ensures |Decimal(n)| <= k <==> n < Pow10(k)
    decreases k
  {
    if k == 1 {
      assert Pow10(1) == 10 * Pow10(0) == 10;
    } else if n >= 10 {
      DecimalLength(n / 10, k - 1);
    } else {
      PowPositive(k - 1);
    }
  }

  lemma {:induction false} PowPositive(k: nat)
    ensures Pow10(k) >= 1
    decreases k
  {
    if k != 0 { PowPositive(k - 1); }
  }
}
