/** `Int32.Parse(string)` with the default number style (leading and trailing
    white space, an optional leading sign, decimal digits) and the invariant
    culture's signs. A string it rejects, by format or by range, makes it
    throw; here that is `None`. */
module Numbers {
  import opened Wrappers

  const Int32Min := -0x8000_0000
  const Int32Max := 0x7FFF_FFFF

  predicate IsInt32(n: int)
  {
    Int32Min <= n <= Int32Max
  }

  /** The white space `NumberStyles.AllowLeadingWhite` and
      `AllowTrailingWhite` skip: U+0009 to U+000D and the space. */
  predicate IsWhite(c: char)
  {
    c == ' ' || '\t' <= c <= '\r'
  }

  predicate IsDigit(c: char)
  {
    '0' <= c <= '9'
  }

  predicate AllDigits(s: string)
  {
    forall i :: 0 <= i < |s| ==> IsDigit(s[i])
  }

  function TrimStart(s: string): string
  {
    if s != [] && IsWhite(s[0]) then TrimStart(s[1..]) else s
  }

  function TrimEnd(s: string): string
  {
    if s != [] && IsWhite(s[|s| - 1]) then TrimEnd(s[..|s| - 1]) else s
  }

  /** The value of a string of decimal digits. */
  function DigitsValue(d: string): nat
    requires AllDigits(d)
  {
    if d == [] then 0
    else
      assert IsDigit(d[|d| - 1]);
      10 * DigitsValue(d[..|d| - 1]) + (d[|d| - 1] as int - '0' as int)
  }

  /** What `Int32.Parse` returns, `None` where it throws. */
  function ParseInt32(s: string): (r: Option<int>)
    ensures r.Some? ==> IsInt32(r.value)
  {
    var t := TrimEnd(TrimStart(s));
    var negative := t != [] && t[0] == '-';
    var digits := if t != [] && (t[0] == '-' || t[0] == '+') then t[1..] else t;
    if digits == [] || !AllDigits(digits) then None
    else
      var v: int := DigitsValue(digits);
      var n := if negative then -v else v;
      if IsInt32(n) then Some(n) else None
  }

  function DigitChar(d: nat): char
    requires d < 10
  {
    ('0' as int + d) as char
  }

  /** The shortest decimal spelling of `n`. */
  function Digits(n: nat): (s: string)
    ensures s != [] && AllDigits(s)
  {
    if n < 10 then [DigitChar(n)] else Digits(n / 10) + [DigitChar(n % 10)]
  }

  /** `n.ToString()`: the decimal spelling, with '-' for a negative value. */
  function Decimal(n: int): string
  {
    if n < 0 then "-" + Digits(-n) else Digits(n)
  }

  lemma {:induction false} DigitsValueOfDigits(n: nat)
    ensures DigitsValue(Digits(n)) == n
  {
    if n >= 10 {
      var s := Digits(n);
      assert s[..|s| - 1] == Digits(n / 10);
      DigitsValueOfDigits(n / 10);
    }
  }

  /** Parsing the decimal spelling of an `int` gives it back when it is a
      32-bit integer, so every index the program prints can be typed back
      in; any other value overflows and throws. */
  lemma ParseDecimal(n: int)
    ensures ParseInt32(Decimal(n)) == if IsInt32(n) then Some(n) else None
  {
    var m: nat := if n < 0 then -n else n;
    var d := Digits(m);
    DigitsValueOfDigits(m);
    var s := Decimal(n);
    assert IsDigit(d[0]) && IsDigit(d[|d| - 1]);
    if n < 0 {
      assert s == "-" + d;
      assert s[1..] == d && s[|s| - 1] == d[|d| - 1];
    } else {
      assert s == d;
    }
    Untrimmed(s);
  }

  /** The only strings `Int32.Parse` accepts: after trimming white space,
      an optional sign followed by at least one digit, and nothing else.
      So an empty or blank entry, a lone sign, a space between digits or
      any other character makes it throw. */
  lemma ParseInt32Shape(s: string)
    ensures ParseInt32(s).Some? ==>
              var t := TrimEnd(TrimStart(s));
              && t != "" && t != "+" && t != "-"
              && (IsDigit(t[0]) || t[0] == '+' || t[0] == '-')
              && forall i :: 1 <= i < |t| ==> IsDigit(t[i])
  {
    var t := TrimEnd(TrimStart(s));
    if ParseInt32(s).Some? && t != [] {
      if t[0] == '-' || t[0] == '+' {
        var d := t[1..];
        assert d != [] && AllDigits(d);
        forall i | 1 <= i < |t| ensures IsDigit(t[i]) {
          assert t[i] == d[i - 1];
        }
      }
    }
  }

  lemma Untrimmed(s: string)
    requires s != [] && !IsWhite(s[0]) && !IsWhite(s[|s| - 1])
    ensures TrimEnd(TrimStart(s)) == s
  {
  }

  /** Surrounding white space does not change the result. */
  lemma ParseIgnoresWhite(w1: string, s: string, w2: string)
    requires forall i :: 0 <= i < |w1| ==> IsWhite(w1[i])
    requires forall i :: 0 <= i < |w2| ==> IsWhite(w2[i])
    requires s != [] && !IsWhite(s[0]) && !IsWhite(s[|s| - 1])
    ensures ParseInt32(w1 + s + w2) == ParseInt32(s)
  {
    TrimStartWhite(w1, s + w2);
    assert w1 + s + w2 == w1 + (s + w2);
    TrimEndWhite(s, w2);
  }

  lemma {:induction false} TrimStartWhite(w: string, s: string)
    requires forall i :: 0 <= i < |w| ==> IsWhite(w[i])
    requires s != [] && !IsWhite(s[0])
    ensures TrimStart(w + s) == s
    decreases |w|
  {
    if w == [] {
      assert w + s == s;
    } else {
      assert (w + s)[1..] == w[1..] + s;
      TrimStartWhite(w[1..], s);
    }
  }

  lemma {:induction false} TrimEndWhite(s: string, w: string)
    requires forall i :: 0 <= i < |w| ==> IsWhite(w[i])
    requires s != [] && !IsWhite(s[|s| - 1])
    ensures TrimEnd(s + w) == s
    decreases |w|
  {
    if w == [] {
      assert s + w == s;
    } else {
      var w' := w[..|w| - 1];
      assert (s + w)[..|s + w| - 1] == s + w';
      TrimEndWhite(s, w');
    }
  }
}
