/**
 The pieces of Go's `strings` and `strconv` packages that the operator relies on:
 splitting on a one-character separator, and the decimal conversions `Itoa` and `Atoi`.
 */
module Strings {

  /** The largest value of Go's `int` on a 64-bit platform. */
  const MAX_INT: int := 0x7fff_ffff_ffff_ffff

  datatype Option<+T> = None | Some(value: T)

  // ---------------------------------------------------------------- Split

  /** `strings.Split(s, sep)` for a separator of one character. */
  function Split(s: string, sep: char): (parts: seq<string>)
    ensures |parts| >= 1
  {
    if s == "" then [""] else Prepend(s[0], Split(s[1..], sep), sep)
  }

  /** One more character in front: a separator opens a new part, anything else extends the first. */
  function Prepend(c: char, parts: seq<string>, sep: char): (r: seq<string>)
    requires |parts| >= 1
    ensures |r| >= 1
  {
    if c == sep then [""] + parts else [[c] + parts[0]] + parts[1..]
  }

  /** Puts the separator back between the parts. */
  function Join(parts: seq<string>, sep: char): string
    requires |parts| >= 1
  {
    if |parts| == 1 then parts[0] else parts[0] + [sep] + Join(parts[1..], sep)
  }

  lemma {:induction false} JoinSplit(s: string, sep: char)
    ensures Join(Split(s, sep), sep) == s
  {
    if s != "" {
      JoinSplit(s[1..], sep);
      var rest := Split(s[1..], sep);
      assert s == [s[0]] + s[1..];
      if s[0] == sep {
        assert Split(s, sep)[1..] == rest;
      } else {
        assert Split(s, sep)[1..] == rest[1..];
      }
    }
  }

  /** A string is its own only part exactly when the separator does not occur in it. */
  lemma {:induction false} SplitSingle(s: string, sep: char)
    ensures sep !in s <==> |Split(s, sep)| == 1
    ensures sep !in s ==> Split(s, sep) == [s]
  {
    if s != "" {
      SplitSingle(s[1..], sep);
      assert s == [s[0]] + s[1..];
    }
  }

  lemma {:induction false} SplitParts(s: string, sep: char, i: nat)
    requires i < |Split(s, sep)|
    ensures sep !in Split(s, sep)[i]
  {
    if s != "" {
      var rest := Split(s[1..], sep);
      if s[0] == sep {
        if i > 0 { SplitParts(s[1..], sep, i - 1); }
      } else {
        SplitParts(s[1..], sep, i);
      }
    }
  }

  /** Splitting a concatenation around a separator splits the two halves. */
  lemma {:induction false} SplitConcat(a: string, b: string, sep: char)
    ensures Split(a + [sep] + b, sep) == Split(a, sep) + Split(b, sep)
  {
    var whole := a + [sep] + b;
    if a == "" {
      assert whole == [sep] + b;
    } else {
      assert whole[0] == a[0] && whole[1..] == a[1..] + [sep] + b;
      SplitConcat(a[1..], b, sep);
      PrependConcat(a[0], Split(a[1..], sep), Split(b, sep), sep);
    }
  }

  lemma PrependConcat(c: char, left: seq<string>, right: seq<string>, sep: char)
    requires |left| >= 1
    ensures Prepend(c, left + right, sep) == Prepend(c, left, sep) + right
  {
    if c == sep {
      assert [""] + (left + right) == ([""] + left) + right;
    } else {
      assert (left + right)[1..] == left[1..] + right;
    }
  }

  // ---------------------------------------------------------------- Itoa and Atoi

  predicate IsDigit(c: char) { '0' <= c <= '9' }

  predicate AllDigits(s: string) { forall i :: 0 <= i < |s| ==> IsDigit(s[i]) }

  function DigitChar(d: int): char
    requires 0 <= d < 10
  {
    (d + '0' as int) as char
  }

  /** `strconv.Itoa` on a non-negative number. */
  function Itoa(n: nat): (s: string)
    ensures s != "" && AllDigits(s)
  {
    if n < 10 then [DigitChar(n)] else Itoa(n / 10) + [DigitChar(n % 10)]
  }

  function DigitsValue(s: string): (n: nat)
    requires AllDigits(s)
  {
    if s == "" then 0 else DigitsValue(s[..|s| - 1]) * 10 + (s[|s| - 1] as int - '0' as int)
  }

  /** `strconv.Atoi`: an optional sign, at least one digit, and a result that fits a 64-bit `int`. */
  function Atoi(s: string): Option<int> {
    var signed := s != "" && (s[0] == '-' || s[0] == '+');
    var digits := if signed then s[1..] else s;
    if digits == "" || !AllDigits(digits) then None
    else
      var n: int := DigitsValue(digits);
      if s[0] == '-' then (if n <= MAX_INT + 1 then Some(-n) else None)
      else if n <= MAX_INT then Some(n) else None
  }

  lemma {:induction false} DigitsValueItoa(n: nat)
    ensures DigitsValue(Itoa(n)) == n
  {
    if n >= 10 {
      DigitsValueItoa(n / 10);
      var s := Itoa(n);
      assert s[..|s| - 1] == Itoa(n / 10);
    } else {
      assert Itoa(n)[..0] == "";
    }
  }

  lemma AtoiItoa(n: nat)
    requires n <= MAX_INT
    ensures Atoi(Itoa(n)) == Some(n)
  {
    DigitsValueItoa(n);
    assert IsDigit(Itoa(n)[0]);
  }

  function Pow10(i: nat): (p: nat)
    ensures p >= 1
  {
    if i == 0 then 1 else 10 * Pow10(i - 1)
  }

  lemma DivTwice(n: nat, p: nat)
    requires p > 0
    ensures n / 10 / p == n / (10 * p)
  {
    var q, r := n / 10 / p, n / 10 % p;
    assert n == 10 * (q * p + r) + n % 10;
    assert n == q * (10 * p) + (10 * r + n % 10) && 0 <= 10 * r + n % 10 < 10 * p;
    QuotientIsUnique(n, 10 * p, q, 10 * r + n % 10);
  }

  lemma QuotientIsUnique(n: nat, d: nat, q: nat, r: nat)
    requires n == q * d + r && r < d
    ensures n / d == q
  {
    assert (n / d - q) * d == r - n % d;
    if n / d > q {
      AtLeast(n / d - q, d);
      assert false;
    } else if n / d < q {
      AtLeast(q - n / d, d);
      assert false;
    }
  }

  lemma AtLeast(factor: nat, d: nat)
    requires factor >= 1
    ensures factor * d >= d
  {
  }

  /** The decimal text: its `i`-th digit from the right is the `i`-th decimal digit of the number. */
  lemma {:induction false} ItoaDigit(n: nat, i: nat)
    requires i < |Itoa(n)|
    ensures Itoa(n)[|Itoa(n)| - 1 - i] as int == '0' as int + n / Pow10(i) % 10
  {
    if i > 0 {
      ItoaDigit(n / 10, i - 1);
      DivTwice(n, Pow10(i - 1));
    }
  }

  /** And there are as many as the number needs, without a leading zero. */
  lemma {:induction false} ItoaLength(n: nat)
    ensures n < Pow10(|Itoa(n)|)
    ensures if n == 0 then |Itoa(n)| == 1 else Pow10(|Itoa(n)| - 1) <= n
    ensures Itoa(n)[0] == '0' <==> n == 0
    ensures |Itoa(n)| == 1 <==> n < 10
  {
    if n >= 10 {
      ItoaLength(n / 10);
      assert Itoa(n)[0] == Itoa(n / 10)[0];
      assert Pow10(|Itoa(n)|) == 10 * Pow10(|Itoa(n / 10)|);
    } else {
      assert Pow10(1) == 10 * Pow10(0);
    }
  }

  /** Every digit string without a leading zero is the text of its value. */
  lemma {:induction false} ItoaDigitsValue(s: string)
    requires s != "" && AllDigits(s) && (s[0] == '0' ==> |s| == 1)
    ensures Itoa(DigitsValue(s)) == s
    ensures s[0] != '0' ==> DigitsValue(s) > 0
  {
    var prefix, last := s[..|s| - 1], s[|s| - 1];
    if |s| == 1 {
      assert prefix == "";
      assert DigitsValue(s) == last as int - '0' as int;
    } else {
      ItoaDigitsValue(prefix);
      assert DigitsValue(s) == DigitsValue(prefix) * 10 + (last as int - '0' as int);
      assert DigitsValue(s) / 10 == DigitsValue(prefix) && DigitsValue(s) % 10 == last as int - '0' as int;
      assert s == prefix + [last];
    }
  }

  /** Leading zeros do not count. */
  lemma {:induction false} LeadingZero(s: string)
    requires AllDigits(s)
    ensures AllDigits("0" + s) && DigitsValue("0" + s) == DigitsValue(s)
  {
    var padded := "0" + s;
    assert AllDigits(padded);
    if s == "" {
      assert padded[..0] == "";
    } else {
      LeadingZero(s[..|s| - 1]);
      assert padded[..|padded| - 1] == "0" + s[..|s| - 1];
    }
  }

  /** An optional sign and at least one digit, character by character. */
  predicate Numeral(s: string) {
    && s != ""
    && (IsDigit(s[0]) || ((s[0] == '+' || s[0] == '-') && |s| > 1))
    && forall i :: 1 <= i < |s| ==> IsDigit(s[i])
  }

  function Magnitude(s: string): nat
    requires Numeral(s)
  {
    DigitsValue(if IsDigit(s[0]) then s else s[1..])
  }

  /** A text parses exactly when it is a numeral in the range of the machine integer, and to its value. */
  lemma AtoiExact(s: string)
    ensures Atoi(s).Some? <==> Numeral(s) && Magnitude(s) <= (if s[0] == '-' then MAX_INT + 1 else MAX_INT)
    ensures Atoi(s).Some? && s[0] == '-' ==> Atoi(s).value + Magnitude(s) == 0
    ensures Atoi(s).Some? && s[0] != '-' ==> Atoi(s).value == Magnitude(s)
  {
    if s != "" {
      assert s == [s[0]] + s[1..];
      assert AllDigits(s[1..]) <==> forall i :: 1 <= i < |s| ==> IsDigit(s[i]) by {
        assert forall i :: 1 <= i < |s| ==> s[i] == s[1..][i - 1];
        assert forall i :: 0 <= i < |s| - 1 ==> s[1..][i] == s[i + 1];
      }
    }
  }

  /** Without a minus sign in the text, a successful `Atoi` cannot be negative. */
  lemma AtoiNonNegative(s: string)
    requires '-' !in s
    ensures Atoi(s).Some? ==> 0 <= Atoi(s).value <= MAX_INT
  {
    if s != "" {
      assert s[0] in s;
    }
  }

  // ---------------------------------------------------------------- Listings

  lemma CountedTwice<T>(s: seq<T>, i: nat, j: nat)
    requires i < j < |s| && s[i] == s[j]
    ensures multiset(s)[s[i]] >= 2
  {
    assert s == s[..j] + s[j..];
    assert s[..j][i] == s[i] && s[j..][0] == s[i];
  }

  /** A listing of a set holds every element once, so equal entries have equal positions. */
  lemma ListedOnce<T>(s: seq<T>, elements: set<T>, i: nat, j: nat)
    requires multiset(s) == multiset(elements)
    requires i < |s| && j < |s| && s[i] == s[j]
    ensures i == j
  {
    if i < j {
      CountedTwice(s, i, j);
    } else if j < i {
      CountedTwice(s, j, i);
    }
  }
}
