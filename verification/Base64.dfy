/** Base64, as checksum headers and trailers carry it, with the decoder that reads it back. */
module Base64 {
  import opened Prelude

  const PAD: byte := 61

  type Sextet = v: int | 0 <= v < 64

  function CharOf(v: Sextet): byte {
    if v < 26 then (65 + v) as byte
    else if v < 52 then (71 + v) as byte
    else if v < 62 then (v - 4) as byte
    else if v == 62 then 43
    else 47
  }

  function ValueOf(c: byte): Option<Sextet> {
    if 65 <= c <= 90 then Some(c as int - 65)
    else if 97 <= c <= 122 then Some(c as int - 71)
    else if 48 <= c <= 57 then Some(c as int + 4)
    else if c == 43 then Some(62)
    else if c == 47 then Some(63)
    else None
  }

  /** Three bytes are four groups of six bits. */
  datatype Quad = Quad(p: Sextet, q: Sextet, r: Sextet, t: Sextet)

  function Cut(a: byte, b: byte, c: byte): Quad {
    var a, b, c := a as int, b as int, c as int;
    Quad(a / 4, a % 4 * 16 + b / 16, b % 16 * 4 + c / 64, c % 64)
  }

  function Join(g: Quad): (byte, byte, byte) {
    ((g.p * 4 + g.q / 16) as byte, (g.q % 16 * 16 + g.r / 4) as byte, (g.r % 4 * 64 + g.t) as byte)
  }

  lemma JoinCut(a: byte, b: byte, c: byte)
    ensures Join(Cut(a, b, c)) == (a, b, c)
  {
  }

  function Encode(d: Bytes): (r: Bytes)
    ensures Without(r, 13) && Without(r, 10)
  {
    if d == [] then []
    else if |d| == 1 then
      var g := Cut(d[0], 0, 0);
      [CharOf(g.p), CharOf(g.q), PAD, PAD]
    else if |d| == 2 then
      var g := Cut(d[0], d[1], 0);
      [CharOf(g.p), CharOf(g.q), CharOf(g.r), PAD]
    else
      var g := Cut(d[0], d[1], d[2]);
      [CharOf(g.p), CharOf(g.q), CharOf(g.r), CharOf(g.t)] + Encode(d[3..])
  }

  /** Groups of four characters; padding only in the last one. */
  function Decode(s: Bytes): Option<Bytes> {
    if s == [] then Some([])
    else if |s| < 4 then None
    else
      var p, q, r, t := ValueOf(s[0]), ValueOf(s[1]), ValueOf(s[2]), ValueOf(s[3]);
      if p == None || q == None then None
      else if s[2] == PAD then
        (if s[3] == PAD && |s| == 4 then Some([Join(Quad(p.value, q.value, 0, 0)).0]) else None)
      else if r == None then None
      else if s[3] == PAD then
        var (x, y, _) := Join(Quad(p.value, q.value, r.value, 0));
        (if |s| == 4 then Some([x, y]) else None)
      else if t == None then None
      else
        var (x, y, z) := Join(Quad(p.value, q.value, r.value, t.value));
        var more := Decode(s[4..]);
        if more == None then None else Some([x, y, z] + more.value)
  }

  lemma ValueOfChar(v: Sextet)
    ensures ValueOf(CharOf(v)) == Some(v) && CharOf(v) != PAD
  {
  }

  lemma DecodeGroup(g: Quad, rest: Bytes)
    requires Decode(rest).Some?
    ensures var (x, y, z) := Join(g);
            && Decode([CharOf(g.p), CharOf(g.q), PAD, PAD]) == Some([Join(Quad(g.p, g.q, 0, 0)).0])
            && Decode([CharOf(g.p), CharOf(g.q), CharOf(g.r), PAD])
            == Some([Join(Quad(g.p, g.q, g.r, 0)).0, Join(Quad(g.p, g.q, g.r, 0)).1])
            && Decode([CharOf(g.p), CharOf(g.q), CharOf(g.r), CharOf(g.t)] + rest)
            == Some([x, y, z] + Decode(rest).value)
  {
    hide CharOf, ValueOf, Join;
    ValueOfChar(g.p);
    ValueOfChar(g.q);
    ValueOfChar(g.r);
    ValueOfChar(g.t);
    assert ([CharOf(g.p), CharOf(g.q), CharOf(g.r), CharOf(g.t)] + rest)[4..] == rest;
  }

  lemma {:induction false} RoundTrip(d: Bytes)
    ensures Decode(Encode(d)) == Some(d)
    decreases |d|
  {
    hide CharOf, ValueOf, Join, Cut;
    if d == [] {
    } else {
      var b, c := if |d| > 1 then d[1] else 0, if |d| > 2 then d[2] else 0;
      var g := Cut(d[0], b, c);
      JoinCut(d[0], b, c);
      PaddingIsZero(d[0], b);
      var rest := if |d| > 3 then d[3..] else [];
      RoundTrip(rest);
      DecodeGroup(g, Encode(rest));
      hide Decode;
      if |d| == 1 {
        assert d == [d[0]];
      } else if |d| == 2 {
        assert d == [d[0], d[1]];
      } else {
        assert d[3..] == rest;
        assert d == [d[0], d[1], d[2]] + rest;
      }
    }
  }

  /** The alphabet: A to Z, a to z, 0 to 9, then + and /. */
  lemma Alphabet()
    ensures CharOf(0) == 65 && CharOf(26) == 97 && CharOf(52) == 48 && CharOf(62) == 43 && CharOf(63) == 47
    ensures forall v: Sextet | v !in {25, 51, 61, 62, 63} :: CharOf(v + 1) == CharOf(v) + 1
  {
  }

  /** The three examples that end in two, one and no padding characters. */
  lemma Examples()
    ensures Encode([77]) == [84, 81, 61, 61]            // "M" is "TQ=="
    ensures Encode([77, 97]) == [84, 87, 69, 61]        // "Ma" is "TWE="
    ensures Encode([77, 97, 110]) == [84, 87, 70, 117]  // "Man" is "TWFu"
  {
    assert Cut(77, 0, 0) == Quad(19, 16, 0, 0);
    assert Cut(77, 97, 0) == Quad(19, 22, 4, 0);
    assert Cut(77, 97, 110) == Quad(19, 22, 5, 46);
    hide Cut;
    var man: Bytes := [77, 97, 110];
    assert man[3..] == [] && Encode(man[3..]) == [];
    assert Encode(man) == [84, 87, 70, 117] + [];
  }

  lemma PaddingIsZero(a: byte, b: byte)
    ensures Cut(a, b, 0).t == 0 && Cut(a, 0, 0).r == 0
  {
  }
}
