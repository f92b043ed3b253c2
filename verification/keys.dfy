// The keys of session messages: "msg:" and the index, zero-padded to six digits
// (fmt.Sprintf("msg:%06d", idx) in agent/taskagent/task.go). Padding makes string
// order numeric order for the first million indices, and no further.
module MessageKeys {
  import opened Lex

  function Digit(d: nat): char
    requires d < 10
  {
    "0123456789"[d]
  }

  // The decimal digits of n, without leading zeros.
  function Digits(n: nat): string {
    if n < 10 then [Digit(n)] else Digits(n / 10) + [Digit(n % 10)]
  }

  function Zeros(k: nat): string {
    if k == 0 then "" else "0" + Zeros(k - 1)
  }

  // %06d
  function Pad(n: nat): string {
    var d := Digits(n);
    if |d| >= 6 then d else Zeros(6 - |d|) + d
  }

  const PREFIX := "msg:"

  function Key(n: nat): string {
    PREFIX + Pad(n)
  }

  // Exactly w digits: the last w digits of n.
  function Fixed(n: nat, w: nat): string {
    if w == 0 then "" else Fixed(n / 10, w - 1) + [Digit(n % 10)]
  }

  function Pow10(w: nat): nat {
    if w == 0 then 1 else 10 * Pow10(w - 1)
  }

  lemma {:induction false} ZerosSnoc(k: nat)
    ensures |Zeros(k)| == k && Zeros(k) + "0" == Zeros(k + 1)
  {
    if k > 0 {
      ZerosSnoc(k - 1);
      assert Zeros(k) + "0" == "0" + (Zeros(k - 1) + "0");
    }
  }

  // Padding to at least the width needed gives the fixed-width digits.
  ghost predicate PadsTo(n: nat, w: nat) {
    |Digits(n)| <= w && Zeros(w - |Digits(n)|) + Digits(n) == Fixed(n, w)
  }

  lemma PadsOneDigit(n: nat, w: nat)
    requires w >= 2 && n < 10 && PadsTo(0, w - 1)
    ensures PadsTo(n, w)
  {
    assert Digits(0) == "0" && Digits(n) == [Digit(n)];
    assert Fixed(n, w) == Fixed(0, w - 1) + [Digit(n)];
    hide Fixed, Digits, Digit;
    ZerosSnoc(w - 2);
    assert Zeros(w - 1) + [Digit(n)] == (Zeros(w - 2) + "0") + [Digit(n)];
  }

  lemma PadsMoreDigits(n: nat, w: nat)
    requires w >= 2 && n >= 10 && PadsTo(n / 10, w - 1)
    ensures PadsTo(n, w)
  {
    var k := w - |Digits(n)|;
    assert Zeros(k) + Digits(n) == (Zeros(k) + Digits(n / 10)) + [Digit(n % 10)];
  }

  lemma {:induction false} PaddedIsFixed(n: nat, w: nat)
    requires w >= 1 && n < Pow10(w)
    ensures PadsTo(n, w)
  {
    hide PadsTo;
    if w == 1 {
      PadsSingle(n);
    } else if n < 10 {
      PaddedIsFixed(0, w - 1);
      PadsOneDigit(n, w);
    } else {
      PaddedIsFixed(n / 10, w - 1);
      PadsMoreDigits(n, w);
    }
  }

  lemma PadsSingle(n: nat)
    requires n < 10
    ensures PadsTo(n, 1)
  {
    assert Fixed(n, 1) == Fixed(n / 10, 0) + [Digit(n % 10)];
    assert Zeros(0) + Digits(n) == Digits(n);
  }

  lemma {:induction false} FixedLength(n: nat, w: nat)
    ensures |Fixed(n, w)| == w
  {
    if w > 0 {
      FixedLength(n / 10, w - 1);
    }
  }

  lemma {:induction false} LtSnoc(a: string, b: string, c: char, d: char)
    requires |a| == |b|
    ensures Lt(a + [c], b + [d]) <==> Lt(a, b) || (a == b && c < d)
  {
    if a == "" {
      assert a + [c] == [c] && b + [d] == [d];
    } else {
      LtSnoc(a[1..], b[1..], c, d);
      assert (a + [c])[1..] == a[1..] + [c] && (b + [d])[1..] == b[1..] + [d];
      assert a == [a[0]] + a[1..] && b == [b[0]] + b[1..];
    }
  }

  // Fixed-width digits are ordered like the numbers.
  lemma {:induction false} FixedOrder(m: nat, n: nat, w: nat)
    requires m < Pow10(w) && n < Pow10(w)
    ensures m == n ==> Fixed(m, w) == Fixed(n, w)
    ensures m < n ==> Lt(Fixed(m, w), Fixed(n, w))
  {
    if w > 0 {
      FixedOrder(m / 10, n / 10, w - 1);
      FixedLength(m / 10, w - 1);
      FixedLength(n / 10, w - 1);
      LtSnoc(Fixed(m / 10, w - 1), Fixed(n / 10, w - 1), Digit(m % 10), Digit(n % 10));
    }
  }

  lemma KeyIsFixed(n: nat)
    requires n < 1_000_000
    ensures Key(n) == PREFIX + Fixed(n, 6)
  {
    assert Pow10(6) == 1_000_000 by {
      assert Pow10(1) == 10 && Pow10(2) == 100 && Pow10(3) == 1000 && Pow10(4) == 10000 && Pow10(5) == 100000;
    }
    PaddedIsFixed(n, 6);
    assert Zeros(0) + Digits(n) == Digits(n);
  }

  lemma KeysOrdered(m: nat, n: nat)
    requires m < n < 1_000_000
    ensures Lt(Key(m), Key(n))
  {
    KeyIsFixed(m);
    KeyIsFixed(n);
    assert Pow10(6) == 1_000_000 by {
      assert Pow10(1) == 10 && Pow10(2) == 100 && Pow10(3) == 1000 && Pow10(4) == 10000 && Pow10(5) == 100000;
    }
    FixedOrder(m, n, 6);
    LtPrefix(PREFIX, Fixed(m, 6), Fixed(n, 6));
  }

  // ----- keys never collide -----

  function DigitValue(c: char): nat {
    if '0' <= c <= '9' then (c as int) - ('0' as int) else 0
  }

  function Value(s: string): nat {
    if s == "" then 0 else 10 * Value(s[..|s| - 1]) + DigitValue(s[|s| - 1])
  }

  lemma DigitValueOf(d: nat)
    requires d < 10
    ensures DigitValue(Digit(d)) == d
  {
  }

  lemma {:induction false} DigitsValue(n: nat)
    ensures Value(Digits(n)) == n
  {
    DigitValueOf(n % 10);
    if n < 10 {
      assert Value([Digit(n)][..0]) == 0;
    } else {
      DigitsValue(n / 10);
      assert Digits(n)[..|Digits(n)| - 1] == Digits(n / 10);
    }
  }

  lemma {:induction false} PaddedValue(k: nat, s: string)
    ensures Value(Zeros(k) + s) == Value(s)
    decreases |s|
  {
    hide DigitValue, Zeros;
    var z := Zeros(k) + s;
    if s != "" {
      assert z[..|z| - 1] == Zeros(k) + s[..|s| - 1];
      PaddedValue(k, s[..|s| - 1]);
    } else {
      ZerosValue(k);
      assert z == Zeros(k);
    }
  }

  lemma {:induction false} ZerosValue(k: nat)
    ensures Value(Zeros(k)) == 0
  {
    if k > 0 {
      ZerosSnoc(k - 1);
      ZerosValue(k - 1);
      assert Zeros(k)[..k - 1] == Zeros(k - 1);
    }
  }

  // The index can be read off the key, for every index.
  lemma KeyValue(n: nat)
    ensures Key(n)[..4] == PREFIX && |Key(n)| >= 4 && Value(Key(n)[4..]) == n
  {
    assert Key(n)[4..] == Pad(n);
    DigitsValue(n);
    if |Digits(n)| < 6 {
      PaddedValue(6 - |Digits(n)|, Digits(n));
    }
  }

  lemma {:induction false} DigitChars(n: nat)
    ensures |Digits(n)| >= 1 && forall c :: c in Digits(n) ==> '0' <= c <= '9'
    ensures forall w: nat :: w >= 1 && n < Pow10(w) ==> |Digits(n)| <= w
  {
    if n >= 10 {
      DigitChars(n / 10);
    }
  }

  lemma {:induction false} ZeroChars(k: nat)
    ensures |Zeros(k)| == k && forall c :: c in Zeros(k) ==> c == '0'
  {
    if k > 0 {
      ZeroChars(k - 1);
    }
  }

  // A key is the prefix and at least six decimal digits, exactly six below a million.
  lemma KeyShape(n: nat)
    ensures |Key(n)| >= 10 && Key(n)[..4] == "msg:" && forall i :: 4 <= i < |Key(n)| ==> '0' <= Key(n)[i] <= '9'
    ensures n < 1_000_000 ==> |Key(n)| == 10
  {
    DigitChars(n);
    if |Digits(n)| < 6 {
      ZeroChars(6 - |Digits(n)|);
    }
    assert Key(n)[4..] == Pad(n);
    forall i | 4 <= i < |Key(n)|
      ensures '0' <= Key(n)[i] <= '9'
    {
      assert Key(n)[i] == Pad(n)[i - 4] && Pad(n)[i - 4] in Pad(n);
    }
    if n < 1_000_000 {
      assert Pow10(6) == 1_000_000;
    }
  }

  lemma KeysDiffer(m: nat, n: nat)
    requires m != n
    ensures Key(m) != Key(n)
  {
    KeyValue(m);
    KeyValue(n);
  }

  // ----- where the order ends -----

  lemma MillionthKey()
    ensures Lt(Key(1_000_000), Key(999_999))
  {
    assert Digits(1) == "1";
    assert Digits(10) == "10";
    assert Digits(100) == "100";
    assert Digits(1_000) == "1000";
    assert Digits(10_000) == "10000";
    assert Digits(100_000) == "100000";
    assert Digits(1_000_000) == "1000000";
    assert Digits(9) == "9";
    assert Digits(99) == "99";
    assert Digits(999) == "999";
    assert Digits(9_999) == "9999";
    assert Digits(99_999) == "99999";
    assert Digits(999_999) == "999999";
    assert Lt("1000000", "999999");
    LtPrefix(PREFIX, "1000000", "999999");
  }

  // The keys of the first n messages are in string order exactly up to a million.
  lemma KeysOrderedIff(n: nat)
    ensures (forall i, j :: 0 <= i < j < n ==> Lt(Key(i), Key(j))) <==> n <= 1_000_000
  {
    if n <= 1_000_000 {
      forall i, j | 0 <= i < j < n
        ensures Lt(Key(i), Key(j))
      {
        KeysOrdered(i, j);
      }
    } else {
      MillionthKey();
      if Lt(Key(999_999), Key(1_000_000)) {
        LtTransitive(Key(999_999), Key(1_000_000), Key(999_999));
        LtIrreflexive(Key(999_999));
      }
    }
  }
}
