/** The key rule every entry point enforces: 1 to 256 bytes of UTF-8 without NUL. */
module Keys {
  import opened Types

  const MAX_KEY_BYTES := 256

  predicate Continuation(b: byte) {
    0x80 <= b <= 0xBF
  }

  /** Length of the well-formed UTF-8 sequence at the front of s, zero when there is none. */
  function RuneLength(s: Bytes): (n: nat)
    ensures n <= |s|
    ensures s != [] && n == 0 ==> s[0] >= 0x80
  {
    if s == [] then 0
    else if s[0] < 0x80 then 1
    else if |s| >= 2 && 0xC2 <= s[0] <= 0xDF && Continuation(s[1]) then 2
    else if |s| >= 3 && 0xE0 <= s[0] <= 0xEF && Continuation(s[1]) && Continuation(s[2])
            && (s[0] == 0xE0 ==> s[1] >= 0xA0) && (s[0] == 0xED ==> s[1] <= 0x9F) then 3
    else if |s| >= 4 && 0xF0 <= s[0] <= 0xF4 && Continuation(s[1]) && Continuation(s[2]) && Continuation(s[3])
            && (s[0] == 0xF0 ==> s[1] >= 0x90) && (s[0] == 0xF4 ==> s[1] <= 0x8F) then 4
    else 0
  }

  predicate ValidUtf8(s: Bytes)
    decreases |s|
  {
    s == [] || (RuneLength(s) > 0 && ValidUtf8(s[RuneLength(s)..]))
  }

  predicate KeyOk(key: Key) {
    1 <= |key| <= MAX_KEY_BYTES && ValidUtf8(key) && 0 !in key
  }

  // ---- The same rule, from the encoding side ----

  /** Unicode scalar values: code points but for the surrogates. */
  predicate Scalar(c: nat) {
    c < 0xD800 || 0xE000 <= c < 0x11_0000
  }

  /** The UTF-8 encoding of one scalar value (section 3 of RFC 3629). */
  function EncodeRune(c: nat): (s: Bytes)
    requires Scalar(c)
    ensures 1 <= |s| <= 4
  {
    if c < 0x80 then [c as byte]
    else if c < 0x800 then [(0xC0 + c / 64) as byte, (0x80 + c % 64) as byte]
    else if c < 0x1_0000 then [(0xE0 + c / 4096) as byte, (0x80 + c / 64 % 64) as byte, (0x80 + c % 64) as byte]
    else [(0xF0 + c / 262144) as byte, (0x80 + c / 4096 % 64) as byte,
          (0x80 + c / 64 % 64) as byte, (0x80 + c % 64) as byte]
  }

  predicate Scalars(cs: seq<nat>) {
    forall i :: 0 <= i < |cs| ==> Scalar(cs[i])
  }

  function EncodeAll(cs: seq<nat>): Bytes
    requires Scalars(cs)
  {
    if cs == [] then [] else EncodeRune(cs[0]) + EncodeAll(cs[1..])
  }

  lemma EncodedRune(c: nat, rest: Bytes)
    requires Scalar(c)
    ensures RuneLength(EncodeRune(c) + rest) == |EncodeRune(c)|
  {
    hide EncodeRune, RuneLength;
    if c < 0x800 { EncodedShort(c, rest); } else if c < 0x1_0000 { Encoded3(c, rest); } else { Encoded4(c, rest); }
  }

  lemma EncodedShort(c: nat, rest: Bytes)
    requires c < 0x800
    ensures RuneLength(EncodeRune(c) + rest) == |EncodeRune(c)|
  {
  }

  lemma Encoded3(c: nat, rest: Bytes)
    requires Scalar(c) && 0x800 <= c < 0x1_0000
    ensures RuneLength(EncodeRune(c) + rest) == |EncodeRune(c)|
  {
    var s := EncodeRune(c) + rest;
    assert s[0] == (0xE0 + c / 4096) as byte && s[1] == (0x80 + c / 64 % 64) as byte && s[2] == (0x80 + c % 64) as byte;
  }

  lemma Encoded4(c: nat, rest: Bytes)
    requires Scalar(c) && c >= 0x1_0000
    ensures RuneLength(EncodeRune(c) + rest) == |EncodeRune(c)|
  {
    var s := EncodeRune(c) + rest;
    assert s[0] == (0xF0 + c / 262144) as byte && s[1] == (0x80 + c / 4096 % 64) as byte;
    assert s[2] == (0x80 + c / 64 % 64) as byte && s[3] == (0x80 + c % 64) as byte;
  }

  lemma Digits(a: nat, b: nat)
    requires b < 64
    ensures (a * 64 + b) / 64 == a && (a * 64 + b) % 64 == b
  {
  }

  lemma Decoded2(a: nat, b: nat)
    requires 2 <= a < 32 && b < 64
    ensures Scalar(a * 64 + b) && EncodeRune(a * 64 + b) == [(0xC0 + a) as byte, (0x80 + b) as byte]
  {
    Digits(a, b);
  }

  lemma Decoded3(a: nat, b: nat, d: nat)
    requires a < 16 && b < 64 && d < 64 && (a == 0 ==> b >= 32) && (a == 13 ==> b < 32)
    ensures var c := (a * 64 + b) * 64 + d;
      Scalar(c) && EncodeRune(c) == [(0xE0 + a) as byte, (0x80 + b) as byte, (0x80 + d) as byte]
  {
    Digits(a, b);
    Digits(a * 64 + b, d);
    Thousands((a * 64 + b) * 64 + d);
  }

  lemma Decoded4(a: nat, b: nat, d: nat, e: nat)
    requires a < 5 && b < 64 && d < 64 && e < 64 && (a == 0 ==> b >= 16) && (a == 4 ==> b < 16)
    ensures var c := ((a * 64 + b) * 64 + d) * 64 + e;
      Scalar(c) && EncodeRune(c) == [(0xF0 + a) as byte, (0x80 + b) as byte, (0x80 + d) as byte, (0x80 + e) as byte]
  {
    Digits(a, b);
    Digits(a * 64 + b, d);
    Digits((a * 64 + b) * 64 + d, e);
    var c := ((a * 64 + b) * 64 + d) * 64 + e;
    Thousands(c);
    Thousands(c / 64);
    Thousands(c);
  }

  lemma Thousands(c: nat)
    ensures c / 4096 == c / 64 / 64 && c / 262144 == c / 4096 / 64
  {
  }

  /** The scalar value a well-formed sequence stands for. */
  lemma DecodedRune(s: Bytes) returns (c: nat)
    requires RuneLength(s) > 0
    ensures Scalar(c) && EncodeRune(c) == s[..RuneLength(s)]
  {
    hide EncodeRune;
    var n := RuneLength(s);
    if n == 1 {
      c := s[0] as nat;
      assert EncodeRune(c) == [s[0]] by { Decoded1(s[0]); }
    } else if n == 2 {
      Decoded2(s[0] as nat - 0xC0, s[1] as nat - 0x80);
      c := (s[0] as nat - 0xC0) * 64 + (s[1] as nat - 0x80);
    } else if n == 3 {
      Decoded3(s[0] as nat - 0xE0, s[1] as nat - 0x80, s[2] as nat - 0x80);
      c := ((s[0] as nat - 0xE0) * 64 + (s[1] as nat - 0x80)) * 64 + (s[2] as nat - 0x80);
    } else {
      Decoded4(s[0] as nat - 0xF0, s[1] as nat - 0x80, s[2] as nat - 0x80, s[3] as nat - 0x80);
      c := (((s[0] as nat - 0xF0) * 64 + (s[1] as nat - 0x80)) * 64 + (s[2] as nat - 0x80)) * 64 + (s[3] as nat - 0x80);
    }
  }

  lemma Decoded1(b: byte)
    requires b < 0x80
    ensures EncodeRune(b as nat) == [b]
  {
  }

  /** Every text is accepted in its encoding. */
  lemma {:induction false} EncodedIsValid(cs: seq<nat>)
    requires Scalars(cs)
    ensures ValidUtf8(EncodeAll(cs))
  {
    hide EncodeRune;
    if cs != [] {
      EncodedIsValid(cs[1..]);
      EncodedRune(cs[0], EncodeAll(cs[1..]));
      var s := EncodeAll(cs);
      assert s[RuneLength(s)..] == EncodeAll(cs[1..]);
    }
  }

  /** And nothing else is accepted. */
  lemma {:induction false} ValidIsEncoded(s: Bytes) returns (cs: seq<nat>)
    requires ValidUtf8(s)
    ensures Scalars(cs) && EncodeAll(cs) == s
    decreases |s|
  {
    hide EncodeRune, RuneLength;
    cs := [];
    if s != [] {
      var n := RuneLength(s);
      var c := DecodedRune(s);
      var rest := ValidIsEncoded(s[n..]);
      cs := [c] + rest;
      assert cs[1..] == rest && s == s[..n] + s[n..];
    }
  }

  ghost predicate IsText(s: Bytes) {
    exists cs :: Scalars(cs) && EncodeAll(cs) == s
  }

  /** A key is valid exactly if it is 1 to 256 bytes long, has no zero byte and encodes some text. */
  lemma KeyExact(key: Key)
    ensures KeyOk(key) <==> 1 <= |key| <= 256 && (forall i :: 0 <= i < |key| ==> key[i] != 0) && IsText(key)
  {
    hide ValidUtf8, EncodeAll;
    if ValidUtf8(key) {
      var cs := ValidIsEncoded(key);
      assert IsText(key);
    }
    if IsText(key) {
      var cs :| Scalars(cs) && EncodeAll(cs) == key;
      EncodedIsValid(cs);
    }
  }
}
