/** The nonce of the engine wire contracts. */
module EngineNonce {
  // 43 characters of URL-safe base64 (section 5 of RFC 4648) stand for exactly 32 octets.

  import opened Text
  import opened Json
  import opened Dictionary
  import opened EngineContracts

  lemma {:induction false} DecodedLength(s: Str)
    requires IsBase64Text(s) && |s| % 4 == 3
    ensures |Base64Decode(s)| == |s| / 4 * 3 + 2
  {
    if |s| > 3 { DecodedLength(s[4..]); }
  }

  /** The length check after decoding never fires: a text of the nonce alphabet is accepted as it is. */
  lemma NonceExactly(v: Json)
    ensures Nonce(v) == if v.Text? && IsNonceText(v.s) then Ok(v.s) else Err(Invalid)
    ensures v.Text? && IsNonceText(v.s) ==> |Base64Decode(v.s)| == 32
  {
    if v.Text? && IsNonceText(v.s) { DecodedLength(v.s); }
  }

  /** Encoding octets and decoding the text is the identity, and 32 octets make a valid nonce. */
  lemma {:induction false} EncodeDecode(b: Bytes)
    ensures Base64Decode(Base64Encode(b)) == b
    ensures |Base64Encode(b)| == (|b| * 4 + 2) / 3
  {
    if |b| >= 3 {
      var s := Base64Encode(b);
      EncodeDecode(b[3..]);
      assert s[4..] == Base64Encode(b[3..]);
      assert b == [b[0], b[1], b[2]] + b[3..];
    }
  }

  lemma FreshNonceAccepted(b: Bytes)
    requires |b| == 32
    ensures Nonce(Text(Base64Encode(b))) == Ok(Base64Encode(b)) && Base64Decode(Base64Encode(b)) == b
  {
    EncodeDecode(b);
    NonceExactly(Text(Base64Encode(b)));
  }

  function Bits6(s: Str, i: nat): (r: nat)
    requires IsBase64Text(s) && i < |s|
    ensures r < 64
  {
    Base64Value(s[i]).value
  }

  /** Two texts that agree except in the two spare bits of a final short group. */
  predicate SameBits(s: Str, t: Str)
    requires IsBase64Text(s) && IsBase64Text(t)
  {
    |s| == |t| && |s| % 4 == 3
    && (forall i | 0 <= i < |s| - 1 :: Bits6(s, i) == Bits6(t, i))
    && Bits6(s, |s| - 1) / 4 == Bits6(t, |s| - 1) / 4
  }

  // The octets of a group of four values of six bits.

  function Octet0(a: nat, b: nat): Octet
    requires a < 64 && b < 64
  {
    a * 4 + b / 16
  }

  function Octet1(b: nat, c: nat): Octet
    requires b < 64 && c < 64
  {
    b % 16 * 16 + c / 4
  }

  function Octet2(c: nat, d: nat): Octet
    requires c < 64 && d < 64
  {
    c % 4 * 64 + d
  }

  lemma TwoOctets(a: nat, b: nat, c: nat, a': nat, b': nat, c': nat)
    requires a < 64 && b < 64 && c < 64 && a' < 64 && b' < 64 && c' < 64
    ensures Octet0(a, b) == Octet0(a', b') && Octet1(b, c) == Octet1(b', c') <==> a == a' && b == b' && c / 4 == c' / 4
  {
  }

  lemma ThreeOctets(a: nat, b: nat, c: nat, d: nat, a': nat, b': nat, c': nat, d': nat)
    requires a < 64 && b < 64 && c < 64 && d < 64 && a' < 64 && b' < 64 && c' < 64 && d' < 64
    ensures Octet0(a, b) == Octet0(a', b') && Octet1(b, c) == Octet1(b', c') && Octet2(c, d) == Octet2(c', d')
      <==> a == a' && b == b' && c == c' && d == d'
  {
    TwoOctets(a, b, c, a', b', c');
    hide Octet0, Octet1;
    assert c == c / 4 * 4 + c % 4 && c' == c' / 4 * 4 + c' % 4;
  }

  /** The three octets of a full group, and the rest. */
  lemma HeadOctets(s: Str)
    requires IsBase64Text(s) && |s| >= 4
    ensures Base64Decode(s) ==
      [Octet0(Bits6(s, 0), Bits6(s, 1)), Octet1(Bits6(s, 1), Bits6(s, 2)), Octet2(Bits6(s, 2), Bits6(s, 3))]
        + Base64Decode(s[4..])
  {
  }

  lemma GroupsEqual(a: Octet, b: Octet, c: Octet, a': Octet, b': Octet, c': Octet, rest: Bytes, rest': Bytes)
    ensures [a, b, c] + rest == [a', b', c'] + rest' <==> a == a' && b == b' && c == c' && rest == rest'
  {
    var x, y := [a, b, c] + rest, [a', b', c'] + rest';
    assert x[0] == a && x[1] == b && x[2] == c && x[3..] == rest;
    assert y[0] == a' && y[1] == b' && y[2] == c' && y[3..] == rest';
  }

  /** A full group decodes injectively, so two texts decode alike group by group. */
  lemma GroupStep(s: Str, t: Str)
    requires IsBase64Text(s) && IsBase64Text(t) && |s| >= 4 && |t| >= 4
    ensures Base64Decode(s) == Base64Decode(t)
      <==> (forall i | 0 <= i < 4 :: Bits6(s, i) == Bits6(t, i)) && Base64Decode(s[4..]) == Base64Decode(t[4..])
  {
    hide Base64Value, Base64Decode, Bits6, Octet0, Octet1, Octet2;
    HeadOctets(s);
    HeadOctets(t);
    var a, b, c, d, a', b', c', d' :=
      Bits6(s, 0), Bits6(s, 1), Bits6(s, 2), Bits6(s, 3), Bits6(t, 0), Bits6(t, 1), Bits6(t, 2), Bits6(t, 3);
    ThreeOctets(a, b, c, d, a', b', c', d');
    GroupsEqual(Octet0(a, b), Octet1(b, c), Octet2(c, d), Octet0(a', b'), Octet1(b', c'), Octet2(c', d'),
      Base64Decode(s[4..]), Base64Decode(t[4..]));
  }

  lemma SameBitsStep(s: Str, t: Str)
    requires IsBase64Text(s) && IsBase64Text(t) && |s| == |t| && |s| % 4 == 3 && |s| >= 4
    ensures SameBits(s, t)
      <==> (forall i | 0 <= i < 4 :: Bits6(s, i) == Bits6(t, i)) && SameBits(s[4..], t[4..])
  {
    hide Base64Value;
    forall i | 4 <= i < |s| ensures Bits6(s, i) == Bits6(s[4..], i - 4) && Bits6(t, i) == Bits6(t[4..], i - 4) {
      assert s[i] == s[4..][i - 4] && t[i] == t[4..][i - 4];
    }
    if SameBits(s[4..], t[4..]) {
      forall i | 4 <= i < |s| - 1 ensures Bits6(s, i) == Bits6(t, i) {
        assert Bits6(s[4..], i - 4) == Bits6(t[4..], i - 4);
      }
    }
    if SameBits(s, t) {
      forall i | 0 <= i < |s| - 5 ensures Bits6(s[4..], i) == Bits6(t[4..], i) {
        assert Bits6(s, i + 4) == Bits6(t, i + 4);
      }
    }
  }

  lemma LastGroup(s: Str)
    requires IsBase64Text(s) && |s| == 3
    ensures Base64Decode(s) == [Octet0(Bits6(s, 0), Bits6(s, 1)), Octet1(Bits6(s, 1), Bits6(s, 2))]
  {
  }

  lemma LastCollides(s: Str, t: Str)
    requires IsBase64Text(s) && IsBase64Text(t) && |s| == 3 && |t| == 3
    ensures Base64Decode(s) == Base64Decode(t) <==> SameBits(s, t)
  {
    LastGroup(s);
    LastGroup(t);
    LastBits(s, t);
    hide Base64Value, Base64Decode, Bits6, SameBits, Octet0, Octet1;
    var a, b, c, a', b', c' := Bits6(s, 0), Bits6(s, 1), Bits6(s, 2), Bits6(t, 0), Bits6(t, 1), Bits6(t, 2);
    TwoOctets(a, b, c, a', b', c');
    PairsEqual(Octet0(a, b), Octet1(b, c), Octet0(a', b'), Octet1(b', c'));
  }

  lemma PairsEqual(a: Octet, b: Octet, a': Octet, b': Octet)
    ensures [a, b] == [a', b'] <==> a == a' && b == b'
  {
    assert [a, b][0] == a && [a, b][1] == b && [a', b'][0] == a' && [a', b'][1] == b';
  }

  lemma LastBits(s: Str, t: Str)
    requires IsBase64Text(s) && IsBase64Text(t) && |s| == 3 && |t| == 3
    ensures SameBits(s, t)
      <==> Bits6(s, 0) == Bits6(t, 0) && Bits6(s, 1) == Bits6(t, 1) && Bits6(s, 2) / 4 == Bits6(t, 2) / 4
  {
    hide Base64Value, Bits6;
  }

  /**
   Decoding is not injective, and this is exactly by how much: nonces of the same length decode
   alike if and only if they differ at most in the two bits the last character does not use.
   */
  lemma {:induction false} DecodeCollides(s: Str, t: Str)
    requires IsBase64Text(s) && IsBase64Text(t) && |s| == |t| && |s| % 4 == 3
    ensures Base64Decode(s) == Base64Decode(t) <==> SameBits(s, t)
  {
    if |s| == 3 {
      hide Base64Value, Base64Decode, Bits6, SameBits;
      LastCollides(s, t);
    } else {
      hide Base64Value, Base64Decode, Bits6, SameBits;
      GroupStep(s, t);
      SameBitsStep(s, t);
      DecodeCollides(s[4..], t[4..]);
    }
  }

  /** Two different nonces with the same octets: the final character's spare bits. */
  lemma SpareBitsCollide()
    ensures exists s, t | IsNonceText(s) && IsNonceText(t) :: s != t && Base64Decode(s) == Base64Decode(t)
  {
    var s := seq(42, i => 'A' as int) + ['A' as int];
    var t := seq(42, i => 'A' as int) + ['B' as int];
    assert s[42] != t[42];
    DecodeCollides(s, t);
  }
}
