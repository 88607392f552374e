/** The browser's `btoa`: standard base 64 (section 4 of RFC 4648) of a string
    whose characters are all below 256, each read as one byte. A character at
    or above 256 makes `btoa` throw; here that is `None`. An unpadded decoder
    is the partner that shows the padding-free encoding loses nothing. */
module Base64 {
  import opened Wrappers

  type Byte = b: int | 0 <= b < 256

  /** A value of the 64-letter alphabet. */
  type Sextet = k: int | 0 <= k < 64

  /** The letter for a sextet, from the alphabet table of section 4 of RFC 4648. */
  function Letter(k: Sextet): (c: char)
    ensures IsLetter(c) && SextetOf(c) == k
  {
    if k < 26 then ('A' as int + k) as char
    else if k < 52 then ('a' as int + (k - 26)) as char
    else if k < 62 then ('0' as int + (k - 52)) as char
    else if k == 62 then '+'
    else '/'
  }

  predicate IsLetter(c: char) {
    ('A' <= c <= 'Z') || ('a' <= c <= 'z') || ('0' <= c <= '9') || c == '+' || c == '/'
  }

  function SextetOf(c: char): Sextet
    requires IsLetter(c)
  {
    if 'A' <= c <= 'Z' then c as int - 'A' as int
    else if 'a' <= c <= 'z' then c as int - 'a' as int + 26
    else if '0' <= c <= '9' then c as int - '0' as int + 52
    else if c == '+' then 62
    else 63
  }

  /** Every character fits in one byte, which is what `btoa` demands. */
  predicate IsLatin1(s: string) {
    forall k :: 0 <= k < |s| ==> s[k] as int < 256
  }

  function Bytes(s: string): (bs: seq<Byte>)
    requires IsLatin1(s)
    ensures |bs| == |s| && forall k :: 0 <= k < |s| ==> bs[k] == s[k] as int
  {
    seq(|s|, k requires 0 <= k < |s| => s[k] as int)
  }

  /** The letters for one whole group of three bytes. */
  function Quad(b0: Byte, b1: Byte, b2: Byte): string {
    [Letter(b0 / 4), Letter(b0 % 4 * 16 + b1 / 16), Letter(b1 % 16 * 4 + b2 / 64), Letter(b2 % 64)]
  }

  /** The letters for a final group of two bytes, before any padding. */
  function Triple(b0: Byte, b1: Byte): string {
    [Letter(b0 / 4), Letter(b0 % 4 * 16 + b1 / 16), Letter(b1 % 16 * 4)]
  }

  /** The letters for a final group of one byte, before any padding. */
  function Pair(b0: Byte): string {
    [Letter(b0 / 4), Letter(b0 % 4 * 16)]
  }

  /** Base 64 with `=` padding: each group of three bytes becomes four letters;
      a final group of one or two bytes becomes two or three letters and
      the padding that completes the quantum. */
  function Encode(bs: seq<Byte>): (s: string)
    ensures |s| == 4 * ((|bs| + 2) / 3)
    decreases |bs|
  {
    if |bs| == 0 then ""
    else if |bs| == 1 then Pair(bs[0]) + "=="
    else if |bs| == 2 then Triple(bs[0], bs[1]) + "="
    else Quad(bs[0], bs[1], bs[2]) + Encode(bs[3..])
  }

  /** `btoa(s)`; `None` where it throws. */
  function Btoa(s: string): (r: Option<string>)
    ensures r.Some? <==> IsLatin1(s)
    ensures r.Some? ==> |r.value| == 4 * ((|s| + 2) / 3)
  {
    if IsLatin1(s) then Some(Encode(Bytes(s))) else None
  }

  /** `s` with every `c` dropped; with `=` it is the padding removal the
      asset ids apply. */
  function RemoveAll(s: string, c: char): (r: string)
    ensures |r| <= |s|
    ensures forall k :: 0 <= k < |r| ==> r[k] != c
    ensures (forall k :: 0 <= k < |s| ==> s[k] != c) ==> r == s
  {
    if s == [] then []
    else if s[0] == c then RemoveAll(s[1..], c)
    else [s[0]] + RemoveAll(s[1..], c)
  }

  /** Base 64 with the padding left off: the encoding the source's ids use. */
  function EncodeUnpadded(bs: seq<Byte>): string
    decreases |bs|
  {
    if |bs| == 0 then ""
    else if |bs| == 1 then Pair(bs[0])
    else if |bs| == 2 then Triple(bs[0], bs[1])
    else Quad(bs[0], bs[1], bs[2]) + EncodeUnpadded(bs[3..])
  }

  /** A string an unpadded encoding can produce: letters only, and a length
      that no number of bytes would leave one letter over for. */
  predicate IsUnpadded(s: string) {
    (forall k :: 0 <= k < |s| ==> IsLetter(s[k])) && |s| % 4 != 1
  }

  /** The bytes that letters `c0`, `c1` (and `c2`, `c3` where present) carry. */
  function FirstOf(c0: char, c1: char): Byte
    requires IsLetter(c0) && IsLetter(c1)
  {
    SextetOf(c0) * 4 + SextetOf(c1) / 16
  }

  function SecondOf(c1: char, c2: char): Byte
    requires IsLetter(c1) && IsLetter(c2)
  {
    SextetOf(c1) % 16 * 16 + SextetOf(c2) / 4
  }

  function ThirdOf(c2: char, c3: char): Byte
    requires IsLetter(c2) && IsLetter(c3)
  {
    SextetOf(c2) % 4 * 64 + SextetOf(c3)
  }

  function Decode(s: string): seq<Byte>
    requires IsUnpadded(s)
    decreases |s|
  {
    if |s| == 0 then []
    else if |s| == 2 then [FirstOf(s[0], s[1])]
    else if |s| == 3 then [FirstOf(s[0], s[1]), SecondOf(s[1], s[2])]
    else [FirstOf(s[0], s[1]), SecondOf(s[1], s[2]), ThirdOf(s[2], s[3])] + Decode(s[4..])
  }

  lemma {:induction false} RemoveAllAppend(a: string, b: string, c: char)
    ensures RemoveAll(a + b, c) == RemoveAll(a, c) + RemoveAll(b, c)
    decreases |a|
  {
    if a == [] {
      assert a + b == b;
    } else {
      assert (a + b)[0] == a[0];
      assert (a + b)[1..] == a[1..] + b;
      RemoveAllAppend(a[1..], b, c);
      if a[0] != c {
        assert [a[0]] + (RemoveAll(a[1..], c) + RemoveAll(b, c))
            == ([a[0]] + RemoveAll(a[1..], c)) + RemoveAll(b, c);
      }
    }
  }

  lemma LettersKept(s: string)
    requires forall k :: 0 <= k < |s| ==> IsLetter(s[k])
    ensures RemoveAll(s, '=') == s
  {
  }

  /** Dropping every `=` from `btoa`'s output leaves exactly the unpadded
      encoding: the letters never include `=`. */
  lemma {:induction false} PaddingRemoved(bs: seq<Byte>)
    ensures RemoveAll(Encode(bs), '=') == EncodeUnpadded(bs)
    decreases |bs|
  {
    if |bs| == 1 {
      var p := Pair(bs[0]);
      assert Encode(bs) == p + "==";
      LettersKept(p);
      RemoveAllAppend(p, "==", '=');
    } else if |bs| == 2 {
      var t := Triple(bs[0], bs[1]);
      assert Encode(bs) == t + "=";
      LettersKept(t);
      RemoveAllAppend(t, "=", '=');
    } else if |bs| >= 3 {
      var q := Quad(bs[0], bs[1], bs[2]);
      assert Encode(bs) == q + Encode(bs[3..]);
      assert EncodeUnpadded(bs) == q + EncodeUnpadded(bs[3..]);
      LettersKept(q);
      RemoveAllAppend(q, Encode(bs[3..]), '=');
      PaddingRemoved(bs[3..]);
    }
  }

  lemma PairRoundTrip(b0: Byte)
    ensures var s := Pair(b0); IsLetter(s[0]) && IsLetter(s[1]) && FirstOf(s[0], s[1]) == b0
  {
  }

  lemma TripleRoundTrip(b0: Byte, b1: Byte)
    ensures var s := Triple(b0, b1);
      IsLetter(s[0]) && IsLetter(s[1]) && IsLetter(s[2])
      && FirstOf(s[0], s[1]) == b0 && SecondOf(s[1], s[2]) == b1
  {
  }

  lemma QuadRoundTrip(b0: Byte, b1: Byte, b2: Byte)
    ensures var s := Quad(b0, b1, b2);
      IsLetter(s[0]) && IsLetter(s[1]) && IsLetter(s[2]) && IsLetter(s[3])
      && FirstOf(s[0], s[1]) == b0 && SecondOf(s[1], s[2]) == b1 && ThirdOf(s[2], s[3]) == b2
  {
  }

  lemma DecodeStep(q: string, rest: string)
    requires |q| == 4 && forall k :: 0 <= k < 4 ==> IsLetter(q[k])
    requires IsUnpadded(rest)
    ensures IsUnpadded(q + rest)
    ensures Decode(q + rest)
         == [FirstOf(q[0], q[1]), SecondOf(q[1], q[2]), ThirdOf(q[2], q[3])] + Decode(rest)
  {
    var s := q + rest;
    assert s[4..] == rest;
    assert s[0] == q[0] && s[1] == q[1] && s[2] == q[2] && s[3] == q[3];
  }

  lemma UnpaddedStep(bs: seq<Byte>)
    requires |bs| >= 3
    ensures EncodeUnpadded(bs) == Quad(bs[0], bs[1], bs[2]) + EncodeUnpadded(bs[3..])
  {
  }

  lemma QuadThenRest(bs: seq<Byte>)
    requires |bs| >= 3
    requires IsUnpadded(EncodeUnpadded(bs[3..])) && Decode(EncodeUnpadded(bs[3..])) == bs[3..]
    ensures var s := Quad(bs[0], bs[1], bs[2]) + EncodeUnpadded(bs[3..]);
      IsUnpadded(s) && Decode(s) == bs
  {
    var q := Quad(bs[0], bs[1], bs[2]);
    QuadRoundTrip(bs[0], bs[1], bs[2]);
    DecodeStep(q, EncodeUnpadded(bs[3..]));
    assert bs == [bs[0], bs[1], bs[2]] + bs[3..];
  }

  /** Decoding the unpadded encoding gives the bytes back, so the encoding
      is one-to-one. */
  lemma {:induction false} DecodeEncode(bs: seq<Byte>)
    ensures IsUnpadded(EncodeUnpadded(bs))
    ensures Decode(EncodeUnpadded(bs)) == bs
    decreases |bs|
  {
    if |bs| == 1 {
      PairRoundTrip(bs[0]);
    } else if |bs| == 2 {
      TripleRoundTrip(bs[0], bs[1]);
    } else if |bs| >= 3 {
      DecodeEncode(bs[3..]);
      UnpaddedStep(bs);
      QuadThenRest(bs);
    }
  }
}
