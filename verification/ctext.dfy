/**
 Text as the C library sees it: NUL-terminated buffers, the tokens `strtok_r` finds for the
 delimiter ":" (section 7.24.5.8 of C11), and decimal conversion by `%d` and `atoi`.
 */
module CText {
  const INT_MAX: nat := 0x7fff_ffff
  const TWO_TO_32: nat := 0x1_0000_0000
  const TWO_TO_64: nat := 0x1_0000_0000_0000_0000

  predicate NulFree(s: string) {
    forall i | 0 <= i < |s| :: s[i] != '\0'
  }

  /** What a `char *` into `s` reads: everything before the first NUL. */
  function CString(s: string): string {
    if s == [] || s[0] == '\0' then [] else [s[0]] + CString(s[1..])
  }

  lemma {:induction false} CStringEndsAtNul(s: string, n: nat)
    requires n < |s| && s[n] == '\0' && NulFree(s[..n])
    ensures CString(s) == s[..n]
  {
    if n > 0 {
      assert s[0] == s[..n][0];
      assert s[1..][..n - 1] == s[..n][1..];
      CStringEndsAtNul(s[1..], n - 1);
    }
  }

  // ---- tokens ----

  /** Length of the longest prefix free of ':'. */
  function Span(s: string): (k: nat)
    ensures k <= |s|
    ensures forall i | 0 <= i < k :: s[i] != ':'
    ensures k < |s| ==> s[k] == ':'
  {
    if s == [] || s[0] == ':' then 0 else 1 + Span(s[1..])
  }

  /** The non-empty pieces of `s` between colons; runs of colons count as one separator. */
  function Tokens(s: string): seq<string> {
    if s == [] then []
    else if s[0] == ':' then Tokens(s[1..])
    else [s[..Span(s)]] + Tokens(s[Span(s)..])
  }

  /** A value that survives being printed between two delimiters and read back by `strtok_r`. */
  predicate WireSafe(t: string) {
    t != [] && NulFree(t) && forall i | 0 <= i < |t| :: t[i] != ':'
  }

  predicate AllSafe(ts: seq<string>) {
    forall i | 0 <= i < |ts| :: WireSafe(ts[i])
  }

  /** `sprintf` with a "%s:%s:...:" format: every piece is followed by a colon. */
  function Joined(ts: seq<string>): string {
    if ts == [] then [] else ts[0] + ":" + Joined(ts[1..])
  }

  lemma SpanIs(s: string, k: nat)
    requires k < |s| && s[k] == ':' && forall i | 0 <= i < k :: s[i] != ':'
    ensures Span(s) == k
  {
  }

  lemma {:induction false} TokensOfJoined(ts: seq<string>)
    requires AllSafe(ts)
    ensures Tokens(Joined(ts)) == ts
  {
    if ts != [] {
      var s := Joined(ts);
      var rest := Joined(ts[1..]);
      var k := |ts[0]|;
      assert s == ts[0] + ([':'] + rest);
      SpanIs(s, k);
      assert s[..k] == ts[0];
      assert s[k..] == [':'] + rest;
      assert s[k..][1..] == rest;
      TokensOfJoined(ts[1..]);
    }
  }

  lemma {:induction false} TokensAreSafe(s: string)
    requires NulFree(s)
    ensures AllSafe(Tokens(s))
    decreases |s|
  {
    if s == [] {
    } else if s[0] == ':' {
      TokensAreSafe(s[1..]);
    } else {
      TokensAreSafe(s[Span(s)..]);
    }
  }

  /** Printing and tokenising are inverse on exactly the lists of non-empty, colon-free pieces. */
  lemma JoinedRoundTrip(ts: seq<string>)
    requires forall i | 0 <= i < |ts| :: NulFree(ts[i])
    ensures Tokens(Joined(ts)) == ts <==> AllSafe(ts)
  {
    JoinedNulFree(ts);
    TokensAreSafe(Joined(ts));
    if AllSafe(ts) {
      TokensOfJoined(ts);
    }
  }

  lemma {:induction false} JoinedNulFree(ts: seq<string>)
    requires forall i | 0 <= i < |ts| :: NulFree(ts[i])
    ensures NulFree(Joined(ts))
  {
    if ts != [] {
      JoinedNulFree(ts[1..]);
    }
  }

  // ---- numbers ----

  function Digit(d: nat): (c: char)
    requires d < 10
    ensures '0' <= c <= '9' && DigitValue(c) == d
  {
    ('0' as int + d) as char
  }

  predicate IsDigit(c: char) {
    '0' <= c <= '9'
  }

  function DigitValue(c: char): nat
    requires IsDigit(c)
  {
    c as int - '0' as int
  }

  /** `%u`. */
  function Decimal(n: nat): (s: string)
    ensures s != [] && forall i | 0 <= i < |s| :: IsDigit(s[i])
  {
    if n < 10 then [Digit(n)] else Decimal(n / 10) + [Digit(n % 10)]
  }

  /** `%d` of a value that fits an int. */
  function PrintInt(v: int): string {
    if v < 0 then "-" + Decimal(-v) else Decimal(v)
  }

  /** The low 32 bits of a `size_t`, read as an int: what `%d` prints when handed one. */
  function AsInt32(n: nat): int {
    (n + INT_MAX + 1) % TWO_TO_32 - (INT_MAX + 1)
  }

  /** An int assigned to a `size_t`: negative values wrap modulo 2 to the 64. */
  function AsSize(v: int): nat {
    v % TWO_TO_64
  }

  /** The digits `s` starts with. */
  function Digits(s: string): (d: string)
    ensures forall i | 0 <= i < |d| :: IsDigit(d[i])
  {
    if s == [] || !IsDigit(s[0]) then [] else [s[0]] + Digits(s[1..])
  }

  function NumberOf(d: string): nat
    requires forall i | 0 <= i < |d| :: IsDigit(d[i])
  {
    if d == [] then 0 else 10 * NumberOf(d[..|d| - 1]) + DigitValue(d[|d| - 1])
  }

  predicate IsSpace(c: char) {
    c == ' ' || '\t' <= c <= '\r'
  }

  /** `atoi`: blanks, an optional sign, then the leading digits. */
  function Atoi(s: string): int {
    if s == [] then 0
    else if IsSpace(s[0]) then Atoi(s[1..])
    else if s[0] == '-' then -(NumberOf(Digits(s[1..])) as int)
    else if s[0] == '+' then NumberOf(Digits(s[1..]))
    else NumberOf(Digits(s))
  }

  lemma {:induction false} DigitsOfDigits(d: string)
    requires forall i | 0 <= i < |d| :: IsDigit(d[i])
    ensures Digits(d) == d
  {
    if d != [] {
      DigitsOfDigits(d[1..]);
    }
  }

  lemma {:induction false} NumberOfDecimal(n: nat)
    ensures NumberOf(Decimal(n)) == n
  {
    if n >= 10 {
      NumberOfDecimal(n / 10);
      assert Decimal(n)[..|Decimal(n)| - 1] == Decimal(n / 10);
    } else {
      assert Decimal(n)[..0] == [];
    }
  }

  /** `n` without its last `i` digits. */
  function Shifted(n: nat, i: nat): nat {
    if i == 0 then n else Shifted(n / 10, i - 1)
  }

  /** `%u` prints the digits of the number from the first that is not zero on, each in its place. */
  lemma {:induction false} DecimalDigits(n: nat)
    ensures var s := Decimal(n);
            && (forall i | 0 <= i < |s| :: s[|s| - 1 - i] as int == '0' as int + Shifted(n, i) % 10)
            && Shifted(n, |s|) == 0 && (Shifted(n, |s| - 1) > 0 || s == "0")
  {
    var s := Decimal(n);
    if n >= 10 {
      var before := Decimal(n / 10);
      DecimalDigits(n / 10);
      forall i | 0 <= i < |s|
        ensures s[|s| - 1 - i] as int == '0' as int + Shifted(n, i) % 10
      {
        if i > 0 {
          assert s[|s| - 1 - i] == before[|before| - 1 - (i - 1)];
        }
      }
    }
  }

  lemma {:induction false} LeadingZeros(zeros: string, d: string)
    requires (forall i | 0 <= i < |zeros| :: zeros[i] == '0') && forall i | 0 <= i < |d| :: IsDigit(d[i])
    ensures NumberOf(zeros + d) == NumberOf(d)
    decreases |zeros| + |d|
  {
    var s := zeros + d;
    if d != [] {
      assert s[..|s| - 1] == zeros + d[..|d| - 1];
      LeadingZeros(zeros, d[..|d| - 1]);
    } else if zeros != [] {
      assert s == zeros && s[..|s| - 1] == zeros[..|zeros| - 1] + [];
      LeadingZeros(zeros[..|zeros| - 1], []);
    }
  }

  lemma {:induction false} DigitsThen(d: string, rest: string)
    requires (forall i | 0 <= i < |d| :: IsDigit(d[i])) && (rest != [] ==> !IsDigit(rest[0]))
    ensures Digits(d + rest) == d
  {
    if d == [] {
      assert d + rest == rest;
    } else {
      assert (d + rest)[1..] == d[1..] + rest;
      DigitsThen(d[1..], rest);
    }
  }

  lemma {:induction false} BlanksSkipped(blanks: string, s: string)
    requires forall i | 0 <= i < |blanks| :: blanks[i] == ' ' || 9 <= blanks[i] as int <= 13
    ensures Atoi(blanks + s) == Atoi(s)
  {
    if blanks == [] {
      assert [] + s == s;
    } else {
      assert (blanks + s)[1..] == blanks[1..] + s;
      BlanksSkipped(blanks[1..], s);
    }
  }

  /** `atoi` skips blanks, takes one sign and the number that follows, leading zeros or not, and stops at
      the first other character. */
  lemma AtoiMeaning(blanks: string, sign: string, zeros: string, n: nat, rest: string)
    requires forall i | 0 <= i < |blanks| :: blanks[i] == ' ' || 9 <= blanks[i] as int <= 13
    requires sign in {"", "+", "-"} && (forall i | 0 <= i < |zeros| :: zeros[i] == '0')
    requires rest != [] ==> !('0' <= rest[0] <= '9')
    ensures Atoi(blanks + (sign + (zeros + Decimal(n) + rest))) == if sign == "-" then -(n as int) else n
  {
    BlanksSkipped(blanks, sign + (zeros + Decimal(n) + rest));
    LeadingZeros(zeros, Decimal(n));
    NumberOfDecimal(n);
    AtoiOfSigned(sign, zeros + Decimal(n), rest);
    hide *;
  }

  lemma AtoiOfSigned(sign: string, d: string, rest: string)
    requires sign in {"", "+", "-"} && (forall i | 0 <= i < |d| :: IsDigit(d[i]))
    requires rest != [] ==> !IsDigit(rest[0])
    requires sign == [] && d == [] && rest != [] ==> !IsSpace(rest[0]) && rest[0] !in {'+', '-'}
    ensures Atoi(sign + (d + rest)) == if sign == "-" then -(NumberOf(d) as int) else NumberOf(d)
  {
    DigitsThen(d, rest);
    hide NumberOf;
    var s := sign + (d + rest);
    if sign == [] {
      assert s == d + rest;
      assert d != [] ==> s[0] == d[0];
    } else {
      assert s[1..] == d + rest;
    }
  }

  /** Without a digit there it is 0. */
  lemma AtoiOfNoNumber(blanks: string, sign: string, rest: string)
    requires forall i | 0 <= i < |blanks| :: blanks[i] == ' ' || 9 <= blanks[i] as int <= 13
    requires sign in {"", "+", "-"} && (rest != [] ==> !('0' <= rest[0] <= '9'))
    requires sign == "" && rest != [] ==> rest[0] !in {' ', '+', '-'} && !(9 <= rest[0] as int <= 13)
    ensures Atoi(blanks + (sign + rest)) == 0
  {
    BlanksSkipped(blanks, sign + rest);
    AtoiOfSigned(sign, [], rest);
    assert [] + rest == rest;
  }

  lemma AtoiOfPrintInt(v: int)
    ensures Atoi(PrintInt(v)) == v
  {
    var n: nat := if v < 0 then -v else v;
    NumberOfDecimal(n);
    DigitsOfDigits(Decimal(n));
    if v < 0 {
      assert PrintInt(v)[1..] == Decimal(n);
    } else {
      assert IsDigit(Decimal(n)[0]);
    }
  }

  lemma PrintIntSafe(v: int)
    ensures WireSafe(PrintInt(v))
  {
    var n: nat := if v < 0 then -v else v;
    assert forall i | 0 <= i < |Decimal(n)| :: IsDigit(Decimal(n)[i]);
  }

  lemma {:induction false} DecimalLength(n: nat, k: nat)
    requires k >= 1 && n < TenTo(k)
    ensures |Decimal(n)| <= k
  {
    if n >= 10 {
      DecimalLength(n / 10, k - 1);
    }
  }

  function TenTo(k: nat): nat {
    if k == 0 then 1 else 10 * TenTo(k - 1)
  }

  /** `%d` shows the int that is congruent to the `size_t` modulo 2 to the 32, and an int assigned to a
      `size_t` gives the one that is congruent to it modulo 2 to the 64. */
  lemma SizeConversions(n: nat, v: int)
    ensures -0x8000_0000 <= AsInt32(n) < 0x8000_0000 && (AsInt32(n) - n) % 0x1_0000_0000 == 0
    ensures AsSize(v) < 0x1_0000_0000_0000_0000 && (AsSize(v) - v) % 0x1_0000_0000_0000_0000 == 0
  {
    var m := n + 0x8000_0000;
    assert m == m / 0x1_0000_0000 * 0x1_0000_0000 + m % 0x1_0000_0000;
    assert AsInt32(n) - n == -(m / 0x1_0000_0000) * 0x1_0000_0000;
    assert v == v / 0x1_0000_0000_0000_0000 * 0x1_0000_0000_0000_0000 + AsSize(v);
    assert AsSize(v) - v == -(v / 0x1_0000_0000_0000_0000) * 0x1_0000_0000_0000_0000;
  }

  /** A `size_t` printed with `%d` and read back with `atoi` survives exactly when it is at most
      INT_MAX or within 2 to the 31 of the top of the `size_t` range. */
  lemma SizeRoundTrip(n: nat)
    requires n < TWO_TO_64
    ensures AsSize(Atoi(PrintInt(AsInt32(n)))) == n <==> n <= INT_MAX || n >= TWO_TO_64 - (INT_MAX + 1)
  {
    var v := AsInt32(n);
    AtoiOfPrintInt(v);
    assert AsSize(v) == if v >= 0 then v else v + TWO_TO_64;
    if n >= TWO_TO_64 - (INT_MAX + 1) {
      assert n + INT_MAX + 1 == TWO_TO_32 * TWO_TO_32 + (n + INT_MAX + 1 - TWO_TO_64);
    }
  }
}
