/** The few java.lang.String and java.lang.Integer operations the decoder
    relies on, with Java's conventions kept (indexOf answers -1 when the
    character is absent). */
module JavaStrings {
  import opened Base

  const INT_MIN: int := -0x8000_0000
  const INT_MAX: int := 0x7fff_ffff

  /** `s.indexOf(ch, from)`: the first position at or after `from` holding
      `ch`, or -1 when there is none. */
  function IndexOf(s: string, ch: char, from: nat): (r: int)
    ensures r == -1 || (from <= r < |s| && s[r] == ch)
    decreases |s| - from
  {
    if from >= |s| then -1
    else if s[from] == ch then from
    else IndexOf(s, ch, from + 1)
  }

  /** indexOf answers the FIRST occurrence, and -1 only when there is none. */
  lemma {:induction false} IndexOfFirst(s: string, ch: char, from: nat)
    ensures IndexOf(s, ch, from) == -1 <==> forall k :: from <= k < |s| ==> s[k] != ch
    ensures forall k :: from <= k < IndexOf(s, ch, from) ==> s[k] != ch
    decreases |s| - from
  {
    if from < |s| && s[from] != ch {
      IndexOfFirst(s, ch, from + 1);
    }
  }

  /** The position of the first `ch` at or after `from`, when it is known. */
  lemma IndexOfAt(s: string, ch: char, from: nat, at: nat)
    requires from <= at < |s| && s[at] == ch
    requires forall k :: from <= k < at ==> s[k] != ch
    ensures IndexOf(s, ch, from) == at
  {
    IndexOfFirst(s, ch, from);
  }

  /** `s.startsWith(prefix)`. */
  predicate StartsWith(s: string, prefix: string) {
    |prefix| <= |s| && s[..|prefix|] == prefix
  }

  /** `s.endsWith(suffix)`. */
  predicate EndsWith(s: string, suffix: string) {
    |suffix| <= |s| && s[|s| - |suffix|..] == suffix
  }

  predicate IsDigit(c: char) {
    '0' <= c <= '9'
  }

  function DigitValue(c: char): int {
    c as int - '0' as int
  }

  predicate IsSign(c: char) {
    c == '-' || c == '+'
  }

  /** `Integer.parseInt` applied to the first `k` characters of `s`: an
      optional sign followed by at least one digit, denoting a value that
      fits in 32 bits; None stands for the NumberFormatException. The value
      grows in magnitude digit by digit, so checking the range after every
      digit rejects exactly the texts whose value overflows. */
  function ParsePrefix(s: string, k: nat): (r: Option<int>)
    requires k <= |s|
    ensures r.Some? ==> INT_MIN <= r.value <= INT_MAX
  {
    if k == 0 || !IsDigit(s[k - 1]) then None
    else if k == 1 then Some(DigitValue(s[0]))
    else if k == 2 && IsSign(s[0]) then Some(if s[0] == '-' then -DigitValue(s[1]) else DigitValue(s[1]))
    else match ParsePrefix(s, k - 1)
      case None => None
      case Some(v) =>
        var w := if s[0] == '-' then v * 10 - DigitValue(s[k - 1]) else v * 10 + DigitValue(s[k - 1]);
        if INT_MIN <= w <= INT_MAX then Some(w) else None
  }

  /** `Integer.parseInt(s)`. */
  function ParseInt(s: string): (r: Option<int>)
    ensures r.Some? ==> INT_MIN <= r.value <= INT_MAX
  {
    ParsePrefix(s, |s|)
  }

  /** Decimal notation of a natural number, without leading zeros: the way a
      size is written into a descriptor. */
  function Decimal(n: nat): (s: string)
    ensures |s| >= 1
  {
    if n < 10 then [('0' as int + n) as char]
    else Decimal(n / 10) + [('0' as int + n % 10) as char]
  }

  lemma {:induction false} DecimalDigits(n: nat)
    ensures forall k :: 0 <= k < |Decimal(n)| ==> IsDigit(Decimal(n)[k])
  {
    if n >= 10 {
      DecimalDigits(n / 10);
      assert forall k :: 0 <= k < |Decimal(n)| - 1 ==> Decimal(n)[k] == Decimal(n / 10)[k];
    }
  }

  /** parsePrefix only looks at the first k characters. */
  lemma {:induction false} ParsePrefixSame(s: string, t: string, k: nat)
    requires k <= |s| && k <= |t|
    requires forall i :: 0 <= i < k ==> s[i] == t[i]
    ensures ParsePrefix(s, k) == ParsePrefix(t, k)
    decreases k
  {
    if k > 2 {
      ParsePrefixSame(s, t, k - 1);
    }
  }

  /** One more digit after a prefix parsePrefix accepts. */
  lemma ParsePrefixStep(s: string, k: nat, v: int, w: int)
    requires 2 <= k <= |s| && (k == 2 ==> !IsSign(s[0]))
    requires IsDigit(s[k - 1]) && ParsePrefix(s, k - 1) == Some(v)
    requires w == (if s[0] == '-' then v * 10 - DigitValue(s[k - 1]) else v * 10 + DigitValue(s[k - 1]))
    requires INT_MIN <= w <= INT_MAX
    ensures ParsePrefix(s, k) == Some(w)
  {
  }

  /** The digits of Decimal(n), read with a sign in front or none, denote n. */
  lemma {:induction false} ParsePrefixDecimal(n: nat, sign: string)
    requires |sign| <= 1 && (sign == [] || IsSign(sign[0]))
    requires n <= (if sign == "-" then -INT_MIN else INT_MAX)
    ensures ParsePrefix(sign + Decimal(n), |sign + Decimal(n)|) == Some(if sign == "-" then -(n as int) else n)
    decreases n
  {
    var s := sign + Decimal(n);
    DecimalDigits(n);
    assert s[|s| - 1] == Decimal(n)[|Decimal(n)| - 1];
    assert sign == [] ==> s[0] == Decimal(n)[0];
    assert sign == "-" <==> (sign != [] && s[0] == '-');
    if n >= 10 {
      var q, d := n / 10, n % 10;
      var t := sign + Decimal(q);
      var v := if sign == "-" then -(q as int) else q;
      var w := if sign == "-" then -(n as int) else n;
      assert Decimal(n) == Decimal(q) + [('0' as int + d) as char];
      assert s == t + [('0' as int + d) as char];
      assert forall i :: 0 <= i < |t| ==> s[i] == t[i];
      assert DigitValue(s[|s| - 1]) == d;
      assert q * 10 + d == n;
      ParsePrefixDecimal(q, sign);
      ParsePrefixSame(s, t, |t|);
      ParsePrefixStep(s, |s|, v, w);
    }
  }

  /** parseInt reads back every size that fits in an int. */
  lemma ParseIntDecimal(n: nat)
    requires n <= INT_MAX
    ensures ParseInt(Decimal(n)) == Some(n)
  {
    ParsePrefixDecimal(n, "");
    assert "" + Decimal(n) == Decimal(n);
  }

  /** A negative size written with a minus sign is read back as well. */
  lemma ParseIntNegative(n: nat)
    requires n <= -INT_MIN
    ensures ParseInt("-" + Decimal(n)) == Some(-(n as int))
  {
    ParsePrefixDecimal(n, "-");
  }
}
