/** The laws asked of public-key encryption can be met: a cipher that hides nothing but obeys them. */
module ToyRsa {
  import opened CText
  import opened Records

  function Escape(x: string): string {
    if x == [] then []
    else (if x[0] == ':' then "ac" else if x[0] == '\0' then "an" else ['b', x[0]]) + Escape(x[1..])
  }

  function Unescape(y: string): string {
    if |y| < 2 then []
    else [if y[0] == 'b' then y[1] else if y[1] == 'c' then ':' else '\0'] + Unescape(y[2..])
  }

  lemma {:induction false} Escaped(x: string)
    ensures |Escape(x)| == 2 * |x| && Unescape(Escape(x)) == x
    ensures forall i | 0 <= i < |Escape(x)| :: Escape(x)[i] != ':' && Escape(x)[i] != '\0'
  {
    if x != [] {
      Escaped(x[1..]);
      assert Escape(x)[2..] == Escape(x[1..]);
      assert [x[0]] + x[1..] == x;
    }
  }

  function Toy(): Rsa {
    Rsa(k => "k", (key, x, padding) => "e" + Escape(x), (k, y) => if y == [] then [] else Unescape(y[1..]))
  }

  lemma ToyIsLawful()
    ensures Lawful(Toy())
  {
    forall x: string
      ensures WireSafe("e" + Escape(x)) && |"e" + Escape(x)| == 1 + 2 * |x|
      ensures Unescape(("e" + Escape(x))[1..]) == x
    {
      Escaped(x);
      assert ("e" + Escape(x))[1..] == Escape(x);
    }
  }
}
