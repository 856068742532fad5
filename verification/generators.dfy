/** The texts whisp makes up: shared secrets, session ids and guids. */
module Generators {
  import opened CText
  import opened Records

  // ---- session_generate_secret ----

  const NAMES: seq<string> := [
    "Alpha", "Beta", "Charlie", "Delta", "Epsilon", "Foxtrot", "Gamma", "Hugo", "Ipswitch", "Jupiter"]

  function SecretText(r: nat, l: nat, n: nat): string
    requires r < 10 && l < 10 && n < 10
  {
    Dashed(NAMES[r], NAMES[l], NAMES[n])
  }

  function Dashed(a: string, b: string, c: string): string {
    a + "-" + b + "-" + c
  }

  function SecretOf(d: Draw): string {
    SecretText(d.r, d.l, d.n)
  }

  predicate DashFree(s: string) {
    forall i | 0 <= i < |s| :: s[i] != '-'
  }

  predicate GoodName(s: string) {
    4 <= |s| <= 8 && DashFree(s) && WireSafe(s)
  }

  lemma NamesAreGood(k: nat)
    requires k < 10
    ensures GoodName(NAMES[k])
  {
    match k
    case 0 => assert NAMES[0] == "Alpha";
    case 1 => assert NAMES[1] == "Beta";
    case 2 => assert NAMES[2] == "Charlie";
    case 3 => assert NAMES[3] == "Delta";
    case 4 => assert NAMES[4] == "Epsilon";
    case 5 => assert NAMES[5] == "Foxtrot";
    case 6 => assert NAMES[6] == "Gamma";
    case 7 => assert NAMES[7] == "Hugo";
    case 8 => assert NAMES[8] == "Ipswitch";
    case 9 => assert NAMES[9] == "Jupiter";
  }

  /** Initials tell the names apart. */
  lemma NamesDiffer(j: nat, k: nat)
    requires j < 10 && k < 10 && NAMES[j] == NAMES[k]
    ensures j == k
  {
    assert forall i | 0 <= i < 10 :: NAMES[i] != [] && NAMES[i][0] as int == 'A' as int + i;
  }

  lemma SecretShape(r: nat, l: nat, n: nat)
    requires r < 10 && l < 10 && n < 10
    ensures 14 <= |SecretText(r, l, n)| <= 26 && WireSafe(SecretText(r, l, n))
  {
    NamesAreGood(r);
    NamesAreGood(l);
    NamesAreGood(n);
  }

  /** The characters `char buffer[24]` has for a secret, an id or a guid, the NUL included. */
  const BUFFER_SIZE: nat := 24

  /** `sprintf` stays inside the buffer if and only if the three names have 21 letters or fewer. */
  lemma SecretFitsIff(r: nat, l: nat, n: nat)
    requires r < 10 && l < 10 && n < 10
    ensures |SecretText(r, l, n)| + 1 <= BUFFER_SIZE <==> |NAMES[r]| + |NAMES[l]| + |NAMES[n]| <= 21
  {
    assert |Dashed(NAMES[r], NAMES[l], NAMES[n])| == |NAMES[r]| + |NAMES[l]| + |NAMES[n]| + 2;
  }

  /** A secret that overruns it: "Ipswitch-Ipswitch-Ipswitch". */
  lemma SecretOverruns()
    ensures |SecretText(8, 8, 8)| + 1 == 27 > BUFFER_SIZE
  {
    assert NAMES[8] == "Ipswitch";
  }

  /** The pieces of `s` between dashes. */
  function Parts(s: string): (parts: seq<string>)
    ensures parts != []
  {
    if s == [] then [[]]
    else if s[0] == '-' then [[]] + Parts(s[1..])
    else
      var rest := Parts(s[1..]);
      [[s[0]] + rest[0]] + rest[1..]
  }

  lemma {:induction false} PartsOf(a: string, rest: string)
    requires DashFree(a)
    ensures Parts(a + "-" + rest) == [a] + Parts(rest)
  {
    var s := a + "-" + rest;
    if a == [] {
      assert s[1..] == rest;
    } else {
      assert s[1..] == a[1..] + "-" + rest;
      PartsOf(a[1..], rest);
      assert [a[0]] + a[1..] == a;
    }
  }

  lemma {:induction false} OnePart(a: string)
    requires DashFree(a)
    ensures Parts(a) == [a]
  {
    if a != [] {
      OnePart(a[1..]);
      assert [a[0]] + a[1..] == a;
    }
  }

  /** Between its dashes a secret has the names of the three draws, in the order they were drawn. */
  lemma SecretParts(d: Draw)
    ensures Parts(SecretOf(d)) == [NAMES[d.r], NAMES[d.l], NAMES[d.n]]
  {
    var a, b, c := NAMES[d.r], NAMES[d.l], NAMES[d.n];
    NamesAreGood(d.r);
    NamesAreGood(d.l);
    NamesAreGood(d.n);
    assert Dashed(a, b, c) == a + "-" + (b + "-" + c);
    PartsOf(a, b + "-" + c);
    PartsOf(b, c);
    OnePart(c);
  }

  /** A secret determines the three numbers drawn for it. */
  lemma SecretInjective(d: Draw, d': Draw)
    requires SecretOf(d) == SecretOf(d')
    ensures d.r == d'.r && d.l == d'.l && d.n == d'.n
  {
    SecretParts(d);
    SecretParts(d');
    NamesDiffer(d.r, d'.r);
    NamesDiffer(d.l, d'.l);
    NamesDiffer(d.n, d'.n);
  }

  /** Four secrets that name each of the ten names. */
  lemma SecretExamples(key: Key, padding: int)
    ensures SecretOf(Draw(key, padding, 0, 1, 2)) == "Alpha-Beta-Charlie"
    ensures SecretOf(Draw(key, padding, 3, 4, 5)) == "Delta-Epsilon-Foxtrot"
    ensures SecretOf(Draw(key, padding, 6, 7, 8)) == "Gamma-Hugo-Ipswitch"
    ensures SecretOf(Draw(key, padding, 9, 0, 0)) == "Jupiter-Alpha-Alpha"
  {
    assert NAMES[0] == "Alpha" && NAMES[1] == "Beta" && NAMES[2] == "Charlie" && NAMES[3] == "Delta";
    assert NAMES[4] == "Epsilon" && NAMES[5] == "Foxtrot" && NAMES[6] == "Gamma" && NAMES[7] == "Hugo";
    assert NAMES[8] == "Ipswitch" && NAMES[9] == "Jupiter";
  }

  // ---- session_generate_id and generate_guid ----

  /** "%u" of each byte of a random UUID, one after the other. */
  function IdText(g: seq<nat>): string {
    if g == [] then [] else IdText(g[..|g| - 1]) + Decimal(g[|g| - 1])
  }

  predicate Uuid(g: seq<nat>) {
    |g| == 16 && forall i | 0 <= i < 16 :: g[i] < 256
  }

  /** A text `session_generate_id` or `generate_guid` can return. */
  ghost predicate Generated(s: string) {
    exists g: seq<nat> :: Uuid(g) && IdText(g) == s
  }

  lemma {:induction false} IdTextShape(g: seq<nat>)
    requires forall i | 0 <= i < |g| :: g[i] < 256
    ensures |g| <= |IdText(g)| <= 3 * |g|
    ensures forall i | 0 <= i < |IdText(g)| :: IsDigit(IdText(g)[i])
  {
    if g != [] {
      IdTextShape(g[..|g| - 1]);
      assert TenTo(3) == 1000;
      DecimalLength(g[|g| - 1], 3);
    }
  }

  lemma GeneratedShape(s: string)
    requires Generated(s)
    ensures 16 <= |s| <= 48 && WireSafe(s)
    ensures forall i | 0 <= i < |s| :: IsDigit(s[i])
  {
    var g: seq<nat> :| Uuid(g) && IdText(g) == s;
    IdTextShape(g);
  }

  /** The bytes are printed in their order. */
  lemma {:induction false} IdTextJoins(g: seq<nat>, h: seq<nat>, b: nat)
    ensures IdText(g + h) == IdText(g) + IdText(h)
    ensures IdText([b]) == Decimal(b)
    decreases |h|
  {
    assert [b][..0] == [];
    if h == [] {
      assert g + h == g;
    } else {
      var n := |h| - 1;
      assert (g + h)[..|g + h| - 1] == g + h[..n];
      IdTextJoins(g, h[..n], b);
    }
  }

  // ---- how long ids are ----

  /** Digits beyond the first in the decimals of the bytes of `g`. */
  function Wide(g: seq<nat>): nat {
    if g == [] then 0
    else Wide(g[..|g| - 1]) + (if g[|g| - 1] >= 10 then 1 else 0) + (if g[|g| - 1] >= 100 then 1 else 0)
  }

  lemma ByteLength(b: nat)
    requires b < 256
    ensures |Decimal(b)| == 1 + (if b >= 10 then 1 else 0) + (if b >= 100 then 1 else 0)
  {
    if b >= 100 {
      assert Decimal(b) == Decimal(b / 10 / 10) + [Digit(b / 10 % 10)] + [Digit(b % 10)];
    } else if b >= 10 {
      assert Decimal(b) == Decimal(b / 10) + [Digit(b % 10)];
    }
  }

  lemma {:induction false} IdTextLength(g: seq<nat>)
    requires forall i | 0 <= i < |g| :: g[i] < 256
    ensures |IdText(g)| == |g| + Wide(g)
  {
    if g != [] {
      IdTextLength(g[..|g| - 1]);
      ByteLength(g[|g| - 1]);
    }
  }

  /** The 24 characters declared hold an id or a guid if and only if its sixteen bytes take no more
      than seven digits beyond their first ones. */
  lemma IdFitsIff(g: seq<nat>)
    requires Uuid(g)
    ensures |IdText(g)| + 1 <= BUFFER_SIZE <==> Wide(g) <= 7
  {
    IdTextLength(g);
  }

  /** `n` bytes of the value `b`. */
  function Repeated(n: nat, b: nat): (g: seq<nat>)
    ensures |g| == n && forall i | 0 <= i < n :: g[i] == b
  {
    seq(n, _ => b)
  }

  lemma {:induction false} WideRepeated(n: nat, b: nat)
    ensures Wide(Repeated(n, b)) == n * (if b >= 100 then 2 else if b >= 10 then 1 else 0)
  {
    if n > 0 {
      WideRepeated(n - 1, b);
      assert Repeated(n, b)[..n - 1] == Repeated(n - 1, b);
    }
  }

  /** An id that overruns them: sixteen bytes of 255. */
  lemma IdOverruns()
    ensures Uuid(Repeated(16, 255)) && |IdText(Repeated(16, 255))| + 1 == 49 > BUFFER_SIZE
  {
    WideRepeated(16, 255);
    IdTextLength(Repeated(16, 255));
  }

  lemma {:induction false} IdTextGrows(g: seq<nat>, i: nat)
    requires i <= |g|
    ensures |IdText(g[..i])| <= |IdText(g)|
  {
    if i < |g| {
      assert g[..|g| - 1][..i] == g[..i];
      IdTextGrows(g[..|g| - 1], i);
    } else {
      assert g[..i] == g;
    }
  }

  /** The shared loop of both generators: `strcat` one printed byte at a time onto a char buffer of
      `size`, as long as it has room. */
  method GenerateId(g: seq<nat>, size: nat) returns (fits: bool, buffer: array<char>, len: nat)
    requires Uuid(g) && size > 0
    ensures fits <==> |IdText(g)| + 1 <= size
    ensures fresh(buffer) && buffer.Length == size
    ensures fits ==> len < size && buffer[..len] == IdText(g) && buffer[len] == '\0'
  {
    buffer := new char[size](_ => '\0');
    fits, len := true, 0;
    var i := 0;
    while i < 16
      invariant 0 <= i <= 16 && len < size
      invariant buffer[..len] == IdText(g[..i]) && buffer[len] == '\0'
    {
      var micro := Decimal(g[i]);
      assert g[..i + 1][..i] == g[..i];
      if len + |micro| >= size {
        IdTextGrows(g, i + 1);
        return false, buffer, len;
      }
      Strcat(buffer, len, micro);
      len := len + |micro|;
      i := i + 1;
    }
    assert g[..16] == g;
  }

  /** `strcat` onto the `len` characters in the buffer. */
  method Strcat(buffer: array<char>, len: nat, text: string)
    requires len + |text| < buffer.Length
    modifies buffer
    ensures buffer[..len + |text|] == old(buffer[..len]) + text && buffer[len + |text|] == '\0'
  {
    var j := 0;
    while j < |text|
      invariant 0 <= j <= |text|
      invariant buffer[..len + j] == old(buffer[..len]) + text[..j]
    {
      buffer[len + j] := text[j];
      j := j + 1;
    }
    assert text[..j] == text;
    buffer[len + j] := '\0';
  }
}
