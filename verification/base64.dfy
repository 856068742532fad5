/** Base64, section 4 of RFC 4648, which the encoder library stands for. */
module Base64 {
  import opened Cells

  type Byte = bv8

  // ---- the alphabet (table 1) ----

  function Letter(d: bv6): char {
    var n := d as int;
    if n < 26 then ('A' as int + n) as char
    else if n < 52 then ('a' as int + n - 26) as char
    else if n < 62 then ('0' as int + n - 52) as char
    else if n == 62 then '+'
    else '/'
  }

  function Digit(c: char): Option<bv6> {
    if 'A' <= c <= 'Z' then Some((c as int - 'A' as int) as bv6)
    else if 'a' <= c <= 'z' then Some((c as int - 'a' as int + 26) as bv6)
    else if '0' <= c <= '9' then Some((c as int - '0' as int + 52) as bv6)
    else if c == '+' then Some(62)
    else if c == '/' then Some(63)
    else None
  }

  lemma DigitOfLetter(d: bv6)
    ensures Digit(Letter(d)) == Some(d)
    ensures Letter(d) != '=' && Letter(d) != '\0'
  {
    LetterReadBack(d);
    assert Digit('=') == None && Digit('\0') == None;
    hide Letter;
  }

  lemma LetterReadBack(d: bv6)
    ensures Digit(Letter(d)) == Some(d)
  {
    var n := d as int;
    assert n as bv6 == d;
    var c := Letter(d);
    if n < 26 {
      assert c as int == 'A' as int + n;
    } else if n < 52 {
      assert c as int == 'a' as int + (n - 26);
    } else if n < 62 {
      assert c as int == '0' as int + (n - 52);
    }
  }

  const CAPITALS := "ABCDEFGHIJKLMNOPQRSTUVWXYZ"
  const SMALL := "abcdefghijklmnopqrstuvwxyz"
  const REST := "0123456789+/"
  const ALPHABET := CAPITALS + SMALL + REST

  lemma LetterOf(d: bv6)
    ensures |ALPHABET| == 64 && Letter(d) == ALPHABET[d as int]
  {
    var n := d as int;
    if n < 26 {
      assert ALPHABET[n] == CAPITALS[n];
      assert CAPITALS[n] as int == 'A' as int + n;
    } else if n < 52 {
      assert ALPHABET[n] == SMALL[n - 26];
      assert SMALL[n - 26] as int == 'a' as int + n - 26;
    } else {
      assert ALPHABET[n] == REST[n - 52];
      assert REST[n - 52] == Letter(d);
    }
  }

  // ---- groups of three bytes, four digits ----

  function First(a: Byte): bv6 { (a >> 2) as bv6 }
  function Second(a: Byte, b: Byte): bv6 { (((a & 3) << 4) | (b >> 4)) as bv6 }
  function Third(b: Byte, c: Byte): bv6 { (((b & 15) << 2) | (c >> 6)) as bv6 }
  function Fourth(c: Byte): bv6 { (c & 63) as bv6 }

  function High(d0: bv6, d1: bv6): Byte { ((d0 as bv8) << 2) | ((d1 as bv8) >> 4) }
  function Middle(d1: bv6, d2: bv6): Byte { ((d1 as bv8) << 4) | ((d2 as bv8) >> 2) }
  function Low(d2: bv6, d3: bv6): Byte { ((d2 as bv8) << 6) | (d3 as bv8) }

  lemma Regrouped(a: Byte, b: Byte, c: Byte)
    ensures High(First(a), Second(a, b)) == a
    ensures Middle(Second(a, b), Third(b, c)) == b
    ensures Low(Third(b, c), Fourth(c)) == c
  {
  }

  function Encode(x: seq<Byte>): (s: string)
    ensures |s| == (|x| + 2) / 3 * 4
    ensures forall i | 0 <= i < |s| :: s[i] == '=' || Digit(s[i]).Some?
  {
    if x == [] then []
    else
      DigitOfLetter(First(x[0]));
      if |x| == 1 then
        DigitOfLetter(Second(x[0], 0));
        [Letter(First(x[0])), Letter(Second(x[0], 0)), '=', '=']
      else
        DigitOfLetter(Second(x[0], x[1]));
        if |x| == 2 then
          DigitOfLetter(Third(x[1], 0));
          [Letter(First(x[0])), Letter(Second(x[0], x[1])), Letter(Third(x[1], 0)), '=']
        else
          DigitOfLetter(Third(x[1], x[2]));
          DigitOfLetter(Fourth(x[2]));
          [Letter(First(x[0])), Letter(Second(x[0], x[1])), Letter(Third(x[1], x[2])), Letter(Fourth(x[2]))]
          + Encode(x[3..])
  }

  lemma GroupOf24Bits(a: Byte, b: Byte, c: Byte)
    ensures var bits := ((a as bv24) << 16) | ((b as bv24) << 8) | (c as bv24);
            && First(a) == ((bits >> 18) & 63) as bv6 && Second(a, b) == ((bits >> 12) & 63) as bv6
            && Third(b, c) == ((bits >> 6) & 63) as bv6 && Fourth(c) == (bits & 63) as bv6
  {
  }

  /** Four characters spell the first three bytes of `x`: their 24 bits, six at a time from the top, in
      letters. Missing bytes count as 0; what has none of their bits is '='. */
  predicate Spells(s: string, x: seq<Byte>)
    requires |s| == 4 && x != []
  {
    var b, c := if 1 < |x| then x[1] else 0, if 2 < |x| then x[2] else 0;
    var bits := ((x[0] as bv24) << 16) | ((b as bv24) << 8) | (c as bv24);
    && s[0] == Letter(((bits >> 18) & 63) as bv6)
    && s[1] == Letter(((bits >> 12) & 63) as bv6)
    && s[2] == (if 1 < |x| then Letter(((bits >> 6) & 63) as bv6) else '=')
    && s[3] == (if 2 < |x| then Letter((bits & 63) as bv6) else '=')
  }

  lemma FirstGroup(x: seq<Byte>)
    requires x != []
    ensures |Encode(x)| >= 4 && Spells(Encode(x)[..4], x)
  {
    GroupOf24Bits(x[0], if 1 < |x| then x[1] else 0, if 2 < |x| then x[2] else 0);
    hide Letter;
    hide First;
    hide Second;
    hide Third;
    hide Fourth;
  }

  /** Each four characters of the text spell the next three bytes. */
  lemma {:induction false} EncodeMeaning(x: seq<Byte>, k: nat)
    requires 3 * k < |x|
    ensures |Encode(x)| >= 4 * k + 4 && Spells(Encode(x)[4 * k..4 * k + 4], x[3 * k..])
  {
    hide Spells;
    if k == 0 {
      FirstGroup(x);
      assert x[0..] == x;
    } else {
      EncodeMeaning(x[3..], k - 1);
      hide Letter;
      assert Encode(x)[4..] == Encode(x[3..]);
      assert Encode(x)[4 * k..4 * k + 4] == Encode(x[3..])[4 * (k - 1)..4 * (k - 1) + 4];
      assert x[3..][3 * (k - 1)..] == x[3 * k..];
    }
  }

  /** The bytes of one group of four characters; '=' pads the last group. */
  function DecodeGroup(c0: char, c1: char, c2: char, c3: char): (bytes: Option<seq<Byte>>)
    ensures bytes.Some? ==> 0 < |bytes.value| <= 3
  {
    match (Digit(c0), Digit(c1), Digit(c2), Digit(c3))
    case (Some(d0), Some(d1), Some(d2), Some(d3)) => Some([High(d0, d1), Middle(d1, d2), Low(d2, d3)])
    case (Some(d0), Some(d1), Some(d2), None) => if c3 == '=' then Some([High(d0, d1), Middle(d1, d2)]) else None
    case (Some(d0), Some(d1), None, None) => if c2 == '=' && c3 == '=' then Some([High(d0, d1)]) else None
    case _ => None
  }

  function Decode(s: string): (x: Option<seq<Byte>>)
    ensures x.Some? ==> |x.value| <= |s|
  {
    if s == [] then Some([])
    else if |s| < 4 then None
    else
      match DecodeGroup(s[0], s[1], s[2], s[3])
      case None => None
      case Some(bytes) =>
        match Decode(s[4..])
        case None => None
        case Some(rest) => if |bytes| < 3 && rest != [] then None else Some(bytes + rest)
  }

  lemma GroupRoundTrip(a: Byte, b: Byte, c: Byte)
    ensures DecodeGroup(Letter(First(a)), Letter(Second(a, b)), Letter(Third(b, c)), Letter(Fourth(c))) ==
            Some([a, b, c])
    ensures DecodeGroup(Letter(First(a)), Letter(Second(a, b)), Letter(Third(b, 0)), '=') == Some([a, b])
    ensures DecodeGroup(Letter(First(a)), Letter(Second(a, 0)), '=', '=') == Some([a])
  {
    Regrouped(a, b, c);
    Regrouped(a, b, 0);
    Regrouped(a, 0, 0);
    DigitOfLetter(First(a));
    DigitOfLetter(Second(a, b));
    DigitOfLetter(Second(a, 0));
    DigitOfLetter(Third(b, c));
    DigitOfLetter(Third(b, 0));
    DigitOfLetter(Fourth(c));
    assert Digit('=') == None;
    hide Digit;
    hide Letter;
    hide First;
    hide Second;
    hide Third;
    hide Fourth;
    hide High;
    hide Middle;
    hide Low;
  }

  /** What was encoded is decoded. */
  lemma {:induction false} RoundTrip(x: seq<Byte>)
    ensures Decode(Encode(x)) == Some(x)
  {
    hide DecodeGroup;
    hide Letter;
    assert Decode([]) == Some([]);
    if |x| == 1 {
      GroupRoundTrip(x[0], 0, 0);
      assert Encode(x)[4..] == [];
      assert [x[0]] + [] == x;
    } else if |x| == 2 {
      GroupRoundTrip(x[0], x[1], 0);
      assert Encode(x)[4..] == [];
      assert [x[0], x[1]] + [] == x;
    } else if |x| > 2 {
      GroupRoundTrip(x[0], x[1], x[2]);
      RoundTrip(x[3..]);
      assert Encode(x)[4..] == Encode(x[3..]);
      assert [x[0], x[1], x[2]] + x[3..] == x;
    }
  }
}
