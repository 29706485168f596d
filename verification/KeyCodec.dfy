/** requestKey: one accepted query string per key, and one key per accepted query string. */
module KeyCodec {
  import opened Types
  import opened Keys

  const PERCENT: byte := 37
  const AMPERSAND: byte := 38
  const PLUS: byte := 43
  const SEMICOLON: byte := 59
  const EQUALS: byte := 61
  const SPACE: byte := 32

  const KEY: Text := [107, 101, 121]

  /** Unreserved characters (section 2.3 of RFC 3986). */
  predicate Unreserved(b: byte) {
    48 <= b <= 57 || 65 <= b <= 90 || 97 <= b <= 122 || b == 45 || b == 46 || b == 95 || b == 126
  }

  function Hex(n: nat): byte
    requires n < 16
  {
    if n < 10 then (48 + n) as byte else (55 + n) as byte
  }

  function Unhex(b: byte): Option<nat> {
    if 48 <= b <= 57 then Some(b as nat - 48)
    else if 65 <= b <= 70 then Some(b as nat - 55)
    else if 97 <= b <= 102 then Some(b as nat - 87)
    else None
  }

  /** url.QueryEscape of one byte. */
  function EscapeByte(b: byte): Text {
    if Unreserved(b) then [b]
    else if b == SPACE then [PLUS]
    else [PERCENT, Hex(b as nat / 16), Hex(b as nat % 16)]
  }

  function QueryEscape(s: Bytes): Text {
    if s == [] then [] else EscapeByte(s[0]) + QueryEscape(s[1..])
  }

  /** strings.ReplaceAll(s, "+", "%20"). */
  function ReplacePlus(s: Text): Text {
    if s == [] then [] else (if s[0] == PLUS then [PERCENT, 50, 48] else [s[0]]) + ReplacePlus(s[1..])
  }

  function Wire(key: Key): Text {
    ReplacePlus(QueryEscape(key))
  }

  /** url.QueryUnescape. */
  function QueryUnescape(s: Text): Option<Bytes> {
    if s == [] then Some([])
    else if s[0] == PERCENT then
      if |s| < 3 || Unhex(s[1]).None? || Unhex(s[2]).None? then None
      else
        var rest := QueryUnescape(s[3..]);
        if rest.None? then None
        else Some([(16 * Unhex(s[1]).value + Unhex(s[2]).value) as byte] + rest.value)
    else
      var rest := QueryUnescape(s[1..]);
      if rest.None? then None else Some([if s[0] == PLUS then SPACE else s[0]] + rest.value)
  }

  function Cut(s: Text, sep: byte): (r: (Text, Text))
    ensures |r.0| <= |s| && (s != [] ==> |r.1| < |s|)
  {
    if s == [] then ([], [])
    else if s[0] == sep then ([], s[1..])
    else
      var r := Cut(s[1..], sep);
      ([s[0]] + r.0, r.1)
  }

  datatype Pair = Pair(name: Bytes, value: Bytes)

  /** url.ParseQuery: no pairs at all as soon as one segment is in error. */
  function ParseQuery(query: Text): Option<seq<Pair>>
    decreases |query|
  {
    if query == [] then Some([])
    else
      var (segment, rest) := Cut(query, AMPERSAND);
      var others := ParseQuery(rest);
      if others.None? || SEMICOLON in segment then None
      else if segment == [] then others
      else
        var (name, value) := Cut(segment, EQUALS);
        var n, v := QueryUnescape(name), QueryUnescape(value);
        if n.None? || v.None? then None else Some([Pair(n.value, v.value)] + others.value)
  }

  function RequestKey(query: Text): Option<Key> {
    var pairs := ParseQuery(query);
    if pairs.None? || |pairs.value| != 1 || pairs.value[0].name != KEY then None
    else
      var key := pairs.value[0].value;
      if !KeyOk(key) || query != KEY + [EQUALS] + Wire(key) then None else Some(key)
  }

  // ---- Encoding and decoding undo each other ----

  function WireByte(b: byte): Text {
    if Unreserved(b) then [b] else [PERCENT, Hex(b as nat / 16), Hex(b as nat % 16)]
  }

  lemma {:induction false} ReplaceAppend(a: Text, b: Text)
    ensures ReplacePlus(a + b) == ReplacePlus(a) + ReplacePlus(b)
  {
    if a == [] {
      assert a + b == b;
    } else {
      assert (a + b)[1..] == a[1..] + b;
      ReplaceAppend(a[1..], b);
    }
  }

  lemma WireStep(key: Key)
    requires key != []
    ensures Wire(key) == WireByte(key[0]) + Wire(key[1..])
  {
    ReplaceAppend(EscapeByte(key[0]), QueryEscape(key[1..]));
    EscapeReplaced(key[0]);
  }

  lemma EscapeReplaced(b: byte)
    ensures ReplacePlus(EscapeByte(b)) == WireByte(b)
  {
    var e := EscapeByte(b);
    assert e[1..] == [] || e[1..] == [e[1], e[2]];
    if |e| == 3 {
      assert e[1..][1..] == [e[2]] && e[1..][1..][1..] == [];
      assert ReplacePlus([e[2]]) == [e[2]];
      assert ReplacePlus(e[1..]) == [e[1]] + ReplacePlus([e[2]]);
    }
  }

  lemma UnescapeStep(b: byte, rest: Text)
    requires QueryUnescape(rest).Some?
    ensures QueryUnescape(WireByte(b) + rest) == Some([b] + QueryUnescape(rest).value)
  {
    var s := WireByte(b) + rest;
    if Unreserved(b) {
      assert s[1..] == rest;
    } else {
      assert s[3..] == rest && s[1] == Hex(b as nat / 16) && s[2] == Hex(b as nat % 16);
    }
  }

  /** 0123456789ABCDEF. */
  const HEX_DIGITS: Text := [48, 49, 50, 51, 52, 53, 54, 55, 56, 57, 65, 66, 67, 68, 69, 70]

  /**
   * Byte by byte: letters, digits and - . _ ~ stand for themselves, every other byte, the space
   * included, is a percent sign and its two upper-case hexadecimal digits.
   */
  lemma WireSpelling(key: Key)
    requires key != []
    ensures Wire([]) == []
    ensures var b := key[0] as nat;
      Wire(key) ==
        (if 48 <= b <= 57 || 65 <= b <= 90 || 97 <= b <= 122 || b in {45, 46, 95, 126} then [key[0]]
         else [37, HEX_DIGITS[b / 16], HEX_DIGITS[b % 16]]) + Wire(key[1..])
  {
    WireStep(key);
    HexDigit(key[0] as nat / 16);
    HexDigit(key[0] as nat % 16);
  }

  lemma HexDigit(n: nat)
    requires n < 16
    ensures Hex(n) == HEX_DIGITS[n]
  {
  }

  predicate Plain(s: Text) {
    AMPERSAND !in s && SEMICOLON !in s && EQUALS !in s
  }

  /** Decoding the canonical form gives the key back, and the form contains no query punctuation. */
  lemma {:induction false} WireDecodes(key: Key)
    ensures QueryUnescape(Wire(key)) == Some(key)
    ensures Plain(Wire(key))
  {
    if key != [] {
      WireDecodes(key[1..]);
      WireStep(key);
      UnescapeStep(key[0], Wire(key[1..]));
      assert [key[0]] + key[1..] == key;
    }
  }

  lemma {:induction false} CutWhole(s: Text, sep: byte)
    requires sep !in s
    ensures Cut(s, sep) == (s, [])
  {
    if s != [] {
      CutWhole(s[1..], sep);
      assert [s[0]] + s[1..] == s;
    }
  }

  lemma {:induction false} CutAt(a: Text, sep: byte, b: Text)
    requires sep !in a
    ensures Cut(a + [sep] + b, sep) == (a, b)
  {
    var s := a + [sep] + b;
    if a == [] {
      assert s[1..] == b;
    } else {
      assert s[1..] == a[1..] + [sep] + b;
      CutAt(a[1..], sep, b);
      assert [a[0]] + a[1..] == a;
    }
  }

  /** Text without escapes or plus signs stands for itself. */
  lemma {:induction false} UnescapeLiteral(s: Text)
    requires PERCENT !in s && PLUS !in s
    ensures QueryUnescape(s) == Some(s)
  {
    if s != [] {
      UnescapeLiteral(s[1..]);
      assert [s[0]] + s[1..] == s;
    }
  }

  lemma CanonicalParses(key: Key)
    ensures ParseQuery(KEY + [EQUALS] + Wire(key)) == Some([Pair(KEY, key)])
  {
    WireDecodes(key);
    var query := KEY + [EQUALS] + Wire(key);
    CutWhole(query, AMPERSAND);
    CutAt(KEY, EQUALS, Wire(key));
    UnescapeLiteral(KEY);
    assert SEMICOLON !in query;
    assert [Pair(KEY, key)] + [] == [Pair(KEY, key)];
  }

  /** A query is accepted for a key exactly when the key is valid and the query is its canonical form. */
  lemma RequestKeyExact(query: Text, key: Key)
    ensures RequestKey(query) == Some(key) <==> KeyOk(key) && query == KEY + [EQUALS] + Wire(key)
  {
    CanonicalParses(key);
  }

  /** The correspondence is one to one: distinct keys have distinct queries, and conversely. */
  lemma RequestKeyBijective(a: Key, b: Key)
    requires KeyOk(a) && KeyOk(b)
    ensures RequestKey(KEY + [EQUALS] + Wire(a)) == Some(a)
    ensures KEY + [EQUALS] + Wire(a) == KEY + [EQUALS] + Wire(b) ==> a == b
    ensures forall p, q :: RequestKey(p) == Some(a) && RequestKey(q) == Some(a) ==> p == q
  {
    RequestKeyExact(KEY + [EQUALS] + Wire(a), a);
    RequestKeyExact(KEY + [EQUALS] + Wire(b), b);
    forall p, q | RequestKey(p) == Some(a) && RequestKey(q) == Some(a) ensures p == q {
      RequestKeyExact(p, a);
      RequestKeyExact(q, a);
    }
  }
}
