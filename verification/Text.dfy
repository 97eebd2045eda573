/** Numbers as decimal text. */
module Text {
  predicate IsDigit(c: char) {
    '0' <= c <= '9'
  }

  function DigitValue(c: char): nat {
    if IsDigit(c) then c as nat - '0' as nat else 0
  }

  /** The characters from `i` up to `n` are digits. */
  predicate Digits(s: string, i: nat, n: nat) {
    i <= n <= |s| && (i == n || (IsDigit(s[n - 1]) && Digits(s, i, n - 1)))
  }

  /** Digits do not reach beyond a character that is none. */
  lemma {:induction false} DigitsStop(s: string, i: nat, n: nat, k: nat)
    requires Digits(s, i, n) && i <= k < |s| && !IsDigit(s[k])
    ensures n <= k
    decreases n
  {
    if i < n {
      DigitsStop(s, i, n - 1, k);
    }
  }

  /** The number they denote; leading zeros are allowed. */
  function Value(s: string, i: nat, n: nat): nat
    requires i <= n <= |s|
  {
    if i == n then 0 else 10 * Value(s, i, n - 1) + DigitValue(s[n - 1])
  }

  /** The same characters in another place denote the same number. */
  lemma {:induction false} SameDigits(s: string, i: nat, t: string, j: nat, n: nat)
    requires i + n <= |s| && j + n <= |t| && s[i..i + n] == t[j..j + n]
    ensures Digits(s, i, i + n) <==> Digits(t, j, j + n)
    ensures Value(s, i, i + n) == Value(t, j, j + n)
    decreases n
  {
    if n > 0 {
      assert s[i..i + n - 1] == s[i..i + n][..n - 1] && t[j..j + n - 1] == t[j..j + n][..n - 1];
      SameDigits(s, i, t, j, n - 1);
      assert s[i..i + n][n - 1] == s[i + n - 1] && t[j..j + n][n - 1] == t[j + n - 1];
    }
  }

  function Digit(n: nat): (c: char)
    requires n < 10
    ensures IsDigit(c) && DigitValue(c) == n
  {
    ('0' as nat + n) as char
  }

  /** The shortest decimal form. */
  function Decimal(n: nat): (s: string)
    ensures s != []
  {
    if n < 10 then [Digit(n)] else Decimal(n / 10) + [Digit(n % 10)]
  }

  /** No zero is in front, unless the number is zero. */
  lemma {:induction false} DecimalIsShortest(n: nat)
    ensures Decimal(n)[0] == '0' <==> n == 0
  {
    if n >= 10 {
      DecimalIsShortest(n / 10);
    }
  }

  lemma {:induction false} DecimalDenotes(n: nat)
    ensures var s := Decimal(n); Digits(s, 0, |s|) && Value(s, 0, |s|) == n
  {
    var s := Decimal(n);
    if n < 10 {
      assert Value(s, 0, 0) == 0;
    } else {
      var front := Decimal(n / 10);
      DecimalDenotes(n / 10);
      SameDigits(s, 0, front, 0, |front|);
    }
  }
}
