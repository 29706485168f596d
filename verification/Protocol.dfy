/**
 * Versions on the wire: the notification header (protocol.go), the strong entity tag and the
 * preconditions built from it (mutations_http.go), and what counts as an acknowledgement.
 */
module Protocol {
  import opened Types
  import opened Decimal

  const MAX_INT64 := 0x7FFF_FFFF_FFFF_FFFF

  const PLUS: byte := 43
  const MINUS: byte := 45
  const QUOTE: byte := 34
  const LETTER_V: byte := 118
  const STAR: byte := 42

  /** strconv.ParseInt(s, 10, 64): an optional sign, then digits, then the range check. */
  function ParseInt(s: Text): Option<int> {
    if s == [] then None
    else
      var signed := s[0] == PLUS || s[0] == MINUS;
      var digits := if signed then s[1..] else s;
      if digits == [] || !AllDigits(digits) then None
      else if s[0] == MINUS then (if ValueOf(digits) <= MAX_INT64 + 1 then Some(-(ValueOf(digits) as int)) else None)
      else if ValueOf(digits) <= MAX_INT64 then Some(ValueOf(digits)) else None
  }

  lemma ParsesItsFormat(v: nat)
    requires v <= MAX_INT64
    ensures ParseInt(Format(v)) == Some(v)
  {
    FormatDenotes(v);
  }

  /** ParseInvalidationVersion: absent means a forced invalidation, anything not canonical is an error. */
  function ParseHeader(values: seq<Text>): Option<nat> {
    if values == [] then Some(0)
    else if |values| != 1 then None
    else
      var v := ParseInt(values[0]);
      if v.Some? && v.value > 0 && Format(v.value) == values[0] then Some(v.value) else None
  }

  function SendHeader(version: nat): seq<Text> {
    if version > 0 then [Format(version)] else []
  }

  /** The header parses to a version exactly when it is that version's one canonical spelling. */
  lemma HeaderExact(values: seq<Text>, v: nat)
    ensures ParseHeader(values) == Some(v) <==> v <= MAX_INT64 && values == SendHeader(v)
  {
    if v <= MAX_INT64 && values == SendHeader(v) && v > 0 {
      ParsesItsFormat(v);
    }
  }

  // ---- Acknowledging a notification ----

  datatype Response = Response(status: nat, headers: seq<Text>)

  /** The client counts an answer only with status 204 and, for a version, the same version echoed. */
  predicate Acknowledges(version: nat, r: Response) {
    r.status == 204 && (version > 0 ==> ParseHeader(r.headers) == Some(version))
  }

  // ---- Entity tags and preconditions ----

  function ETag(version: nat): Text {
    [QUOTE, LETTER_V] + Format(version) + [QUOTE]
  }

  /** The UTF-8 encodings of the white space strings.TrimSpace removes. */
  const SPACES: seq<Text> := [
    [9], [10], [11], [12], [13], [32], [0xC2, 0x85], [0xC2, 0xA0], [0xE1, 0x9A, 0x80],
    [0xE2, 0x80, 0x80], [0xE2, 0x80, 0x81], [0xE2, 0x80, 0x82], [0xE2, 0x80, 0x83], [0xE2, 0x80, 0x84],
    [0xE2, 0x80, 0x85], [0xE2, 0x80, 0x86], [0xE2, 0x80, 0x87], [0xE2, 0x80, 0x88], [0xE2, 0x80, 0x89],
    [0xE2, 0x80, 0x8A], [0xE2, 0x80, 0xA8], [0xE2, 0x80, 0xA9], [0xE2, 0x80, 0xAF], [0xE2, 0x81, 0x9F],
    [0xE3, 0x80, 0x80]]

  predicate Space(s: Text) {
    s in SPACES
  }

  predicate StartsWithSpace(s: Text, n: nat) {
    0 < n <= |s| && Space(s[..n])
  }

  predicate EndsWithSpace(s: Text, n: nat) {
    0 < n <= |s| && Space(s[|s| - n..])
  }

  /** Length of the white-space character at the front, zero when there is none. */
  function LeadingSpace(s: Text): (n: nat)
    ensures n <= 3 && (n > 0 ==> StartsWithSpace(s, n))
    ensures n == 0 ==> !StartsWithSpace(s, 1) && !StartsWithSpace(s, 2) && !StartsWithSpace(s, 3)
  {
    if StartsWithSpace(s, 1) then 1 else if StartsWithSpace(s, 2) then 2 else if StartsWithSpace(s, 3) then 3 else 0
  }

  function TrailingSpace(s: Text): (n: nat)
    ensures n <= 3 && (n > 0 ==> EndsWithSpace(s, n))
    ensures n == 0 ==> !EndsWithSpace(s, 1) && !EndsWithSpace(s, 2) && !EndsWithSpace(s, 3)
  {
    if EndsWithSpace(s, 1) then 1 else if EndsWithSpace(s, 2) then 2 else if EndsWithSpace(s, 3) then 3 else 0
  }

  function TrimLeft(s: Text): (t: Text)
    decreases |s|
  {
    if LeadingSpace(s) == 0 then s else TrimLeft(s[LeadingSpace(s)..])
  }

  function TrimRight(s: Text): (t: Text)
    decreases |s|
  {
    if TrailingSpace(s) == 0 then s else TrimRight(s[..|s| - TrailingSpace(s)])
  }

  function TrimSpace(s: Text): Text {
    TrimRight(TrimLeft(s))
  }

  /** Nothing but white space. */
  predicate Blank(s: Text)
    decreases |s|
  {
    s == [] || exists n :: 1 <= n <= 3 && n <= |s| && Space(s[..n]) && Blank(s[n..])
  }

  lemma {:induction false} BlankAppend(a: Text, b: Text)
    requires Blank(a) && Blank(b)
    ensures Blank(a + b)
    decreases |a|
  {
    hide Space;
    if a == [] {
      assert a + b == b;
    } else {
      var n :| 1 <= n <= 3 && n <= |a| && Space(a[..n]) && Blank(a[n..]);
      BlankAppend(a[n..], b);
      assert (a + b)[..n] == a[..n] && (a + b)[n..] == a[n..] + b;
    }
  }

  lemma BlankOne(s: Text)
    requires Space(s) && 1 <= |s| <= 3
    ensures Blank(s)
  {
    hide Space;
    assert s[..|s|] == s && s[|s|..] == [];
    assert Blank(s[|s|..]);
  }

  lemma TrimLeftStep(s: Text)
    requires LeadingSpace(s) > 0
    ensures LeadingSpace(s) <= |s| && Blank(s[..LeadingSpace(s)])
    ensures TrimLeft(s) == TrimLeft(s[LeadingSpace(s)..])
  {
    hide Space, Blank;
    BlankOne(s[..LeadingSpace(s)]);
  }

  lemma {:induction false} TrimLeftExact(s: Text) returns (a: Text)
    ensures Blank(a) && s == a + TrimLeft(s) && LeadingSpace(TrimLeft(s)) == 0
    decreases |s|
  {
    hide Blank, LeadingSpace, StartsWithSpace;
    a := [];
    EmptyBlank();
    if LeadingSpace(s) > 0 {
      TrimLeftStep(s);
      var front, back := s[..LeadingSpace(s)], s[LeadingSpace(s)..];
      var b := TrimLeftExact(back);
      BlankAppend(front, b);
      a := front + b;
      RegroupLeft(s, front, back, b, TrimLeft(back));
    }
  }

  lemma TrimRightStep(s: Text)
    requires TrailingSpace(s) > 0
    ensures TrailingSpace(s) <= |s| && Blank(s[|s| - TrailingSpace(s)..])
    ensures TrimRight(s) == TrimRight(s[..|s| - TrailingSpace(s)])
  {
    hide Space, Blank;
    BlankOne(s[|s| - TrailingSpace(s)..]);
  }

  lemma {:induction false} TrimRightExact(s: Text) returns (b: Text)
    ensures Blank(b) && s == TrimRight(s) + b && TrailingSpace(TrimRight(s)) == 0
    decreases |s|
  {
    hide Blank, TrailingSpace, EndsWithSpace;
    b := [];
    EmptyBlank();
    if TrailingSpace(s) > 0 {
      TrimRightStep(s);
      var front, back := s[..|s| - TrailingSpace(s)], s[|s| - TrailingSpace(s)..];
      var a := TrimRightExact(front);
      BlankAppend(a, back);
      b := a + back;
      Regroup(s, front, back, TrimRight(front), a);
    }
  }

  lemma Regroup(s: Text, front: Text, back: Text, x: Text, a: Text)
    requires s == front + back && front == x + a
    ensures s == x + (a + back)
  {
  }

  lemma RegroupLeft(s: Text, front: Text, back: Text, b: Text, x: Text)
    requires s == front + back && back == b + x
    ensures s == (front + b) + x
  {
  }

  lemma EmptyBlank()
    ensures Blank([])
  {
  }

  /** Trimming takes white space, and only white space, off both ends, until there is none left there. */
  lemma TrimExact(s: Text) returns (a: Text, b: Text)
    ensures Blank(a) && Blank(b) && s == a + TrimSpace(s) + b
    ensures LeadingSpace(TrimSpace(s)) == 0 && TrailingSpace(TrimSpace(s)) == 0
  {
    hide Space, Blank, TrimLeft, TrimRight;
    a := TrimLeftExact(s);
    var t := TrimLeft(s);
    b := TrimRightExact(t);
    var u := TrimRight(t);
    StillNoLead(t, u, b);
  }

  lemma StillNoLead(t: Text, u: Text, b: Text)
    requires t == u + b && LeadingSpace(t) == 0
    ensures LeadingSpace(u) == 0
  {
    hide Space;
    forall n | 1 <= n <= 3 ensures StartsWithSpace(u, n) ==> StartsWithSpace(t, n) {
      if n <= |u| { assert t[..n] == u[..n]; }
    }
  }

  datatype Precondition = Expect(version: nat) | Required | Malformed

  /** mutationPrecondition over the If-Match and If-None-Match field values. */
  function MutationPrecondition(matches: seq<Text>, absent: seq<Text>, isPut: bool): Precondition {
    if matches == [] && absent == [] then Required
    else if matches == [] && |absent| == 1 && isPut && TrimSpace(absent[0]) == [STAR] then Expect(0)
    else if |matches| != 1 || |absent| != 0 then Malformed
    else
      var raw := TrimSpace(matches[0]);
      if |raw| < 4 || raw[..2] != [QUOTE, LETTER_V] || raw[|raw| - 1] != QUOTE then Malformed
      else
        var v := ParseInt(raw[2..|raw| - 1]);
        if v.Some? && v.value > 0 && raw == ETag(v.value) then Expect(v.value) else Malformed
  }

  /**
   * A positive expectation comes from exactly one spelling, the tag the read handed out; expecting
   * absence needs a PUT with exactly one If-None-Match: * and no If-Match.
   */
  lemma PreconditionExact(matches: seq<Text>, absent: seq<Text>, isPut: bool, v: nat)
    ensures MutationPrecondition(matches, absent, isPut) == Expect(v) <==>
      if v == 0 then isPut && matches == [] && |absent| == 1 && TrimSpace(absent[0]) == [42]
      else v <= MAX_INT64 && |matches| == 1 && absent == [] && TrimSpace(matches[0]) == [34, 118] + Format(v) + [34]
  {
    var raw := ETag(v);
    assert raw[2..|raw| - 1] == Format(v) && raw[..2] == [QUOTE, LETTER_V];
    if v <= MAX_INT64 {
      ParsesItsFormat(v);
    }
    if MutationPrecondition(matches, absent, isPut) == Expect(v) && v > 0 {
      assert |matches| == 1;
    }
  }

  /** The tag of every version is accepted back as that version, with or without surrounding blanks. */
  lemma TagRoundTrip(v: nat, isPut: bool)
    requires 0 < v <= MAX_INT64
    ensures MutationPrecondition([ETag(v)], [], isPut) == Expect(v)
    ensures forall w :: w > 0 && ETag(w) == ETag(v) ==> w == v
  {
    TagIsTrimmed(v);
    PreconditionExact([ETag(v)], [], isPut, v);
    forall w | w > 0 && ETag(w) == ETag(v) ensures w == v {
      TagInjective(w, v);
    }
  }

  lemma TagInjective(v: nat, w: nat)
    requires ETag(v) == ETag(w)
    ensures v == w
  {
    assert ETag(v)[2..|ETag(v)| - 1] == Format(v) && ETag(w)[2..|ETag(w)| - 1] == Format(w);
    FormatInjective(v, w);
  }

  lemma NoQuoteInSpace(s: Text)
    requires Space(s)
    ensures s != [] && s[0] != QUOTE && s[|s| - 1] != QUOTE
  {
  }

  lemma NoLead(t: Text, n: nat)
    requires t != [] && t[0] == QUOTE
    ensures !StartsWithSpace(t, n)
  {
    hide Space;
    if 0 < n <= |t| && Space(t[..n]) { NoQuoteInSpace(t[..n]); }
  }

  lemma NoTrail(t: Text, n: nat)
    requires t != [] && t[|t| - 1] == QUOTE
    ensures !EndsWithSpace(t, n)
  {
    hide Space;
    if 0 < n <= |t| && Space(t[|t| - n..]) { NoQuoteInSpace(t[|t| - n..]); }
  }

  lemma TagIsTrimmed(v: nat)
    ensures TrimSpace(ETag(v)) == ETag(v)
  {
    hide StartsWithSpace, EndsWithSpace, Format;
    var t := ETag(v);
    assert t[0] == QUOTE && t[|t| - 1] == QUOTE;
    NoLead(t, LeadingSpace(t));
    NoTrail(t, TrailingSpace(t));
  }
}
