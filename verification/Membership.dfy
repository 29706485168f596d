/** Directory.Update: what a published membership snapshot contains. Address syntax is a parameter. */
module Membership {
  import opened Types

  datatype Member = Member(id: Text, address: Text)

  /** Byte-wise order of strings. */
  predicate Leq(a: Text, b: Text) {
    a == [] || (b != [] && (a[0] < b[0] || (a[0] == b[0] && Leq(a[1..], b[1..]))))
  }

  lemma {:induction false} LeqTotal(a: Text, b: Text)
    ensures Leq(a, b) || Leq(b, a)
    ensures Leq(a, b) && Leq(b, a) ==> a == b
  {
    if a != [] && b != [] {
      LeqTotal(a[1..], b[1..]);
      assert a == [a[0]] + a[1..] && b == [b[0]] + b[1..];
    }
  }

  lemma {:induction false} LeqTransitive(a: Text, b: Text, c: Text)
    requires Leq(a, b) && Leq(b, c)
    ensures Leq(a, c)
  {
    if a != [] && a[0] == b[0] == c[0] {
      LeqTransitive(a[1..], b[1..], c[1..]);
    }
  }

  predicate Less(a: Text, b: Text) {
    Leq(a, b) && a != b
  }

  lemma LessTransitive(a: Text, b: Text, c: Text)
    requires (Less(a, b) && Leq(b, c)) || (Leq(a, b) && Less(b, c))
    ensures Less(a, c)
  {
    LeqTransitive(a, b, c);
    LeqTotal(a, b);
    LeqTotal(b, c);
  }

  /** The comparison handed to sort.Slice. */
  predicate Ordered(m: Member, n: Member) {
    if m.id != n.id then Leq(m.id, n.id) else Leq(m.address, n.address)
  }

  predicate Sorted(s: seq<Member>) {
    forall i, j :: 0 <= i < j < |s| ==> Ordered(s[i], s[j])
  }

  // ---- What a normalised snapshot is ----

  predicate StrictIds(s: seq<Member>) {
    forall i, j :: 0 <= i < j < |s| ==> Less(s[i].id, s[j].id)
  }

  /** The member with the least address among those that share its identity. */
  predicate Least(input: seq<Member>, m: Member) {
    m in input && forall n :: n in input && n.id == m.id ==> Leq(m.address, n.address)
  }

  ghost predicate Normal(out: seq<Member>, input: seq<Member>) {
    StrictIds(out) && forall m :: m in out <==> Least(input, m)
  }

  lemma {:induction false} StrictEqual(a: seq<Member>, b: seq<Member>)
    requires StrictIds(a) && StrictIds(b) && forall m :: m in a <==> m in b
    ensures a == b
  {
    assert (a != [] ==> a[0] in a) && (b != [] ==> b[0] in b);
    if a != [] {
      SameFirst(a, b);
      forall m ensures m in a[1..] <==> m in b[1..] {
        TailMembers(a, m);
        TailMembers(b, m);
      }
      StrictEqual(a[1..], b[1..]);
      assert a == [a[0]] + a[1..] && b == [b[0]] + b[1..];
    }
  }

  lemma SameFirst(a: seq<Member>, b: seq<Member>)
    requires StrictIds(a) && StrictIds(b) && a != [] && b != []
    requires forall m :: m in a <==> m in b
    ensures a[0] == b[0]
  {
    assert a[0] in b && b[0] in a;
    var i :| 0 <= i < |b| && b[i] == a[0];
    var j :| 0 <= j < |a| && a[j] == b[0];
    LeqTotal(a[0].id, b[0].id);
  }

  lemma TailMembers(a: seq<Member>, m: Member)
    requires StrictIds(a) && a != []
    ensures m in a[1..] <==> m in a && m != a[0]
  {
  }

  /** The snapshot depends only on the set of members, not on their order or multiplicity. */
  lemma SnapshotUnique(out: seq<Member>, input: seq<Member>, out': seq<Member>, input': seq<Member>)
    requires Normal(out, input) && Normal(out', input') && forall m :: m in input <==> m in input'
    ensures out == out'
  {
    forall m ensures m in out <==> m in out' {
      assert Least(input, m) <==> Least(input', m);
    }
    StrictEqual(out, out');
  }

  // ---- Sorting ----

  function Insert(s: seq<Member>, m: Member): seq<Member> {
    if s == [] then [m] else if Ordered(m, s[0]) then [m] + s else [s[0]] + Insert(s[1..], m)
  }

  function SortMembers(s: seq<Member>): seq<Member> {
    if s == [] then [] else Insert(SortMembers(s[1..]), s[0])
  }

  lemma OrderedTotal(m: Member, n: Member, o: Member)
    ensures Ordered(m, n) || Ordered(n, m)
    ensures Ordered(m, n) && Ordered(n, o) ==> Ordered(m, o)
  {
    LeqTotal(m.id, n.id);
    LeqTotal(m.address, n.address);
    LeqTotal(n.id, o.id);
    if Ordered(m, n) && Ordered(n, o) {
      if m.id == n.id == o.id {
        LeqTransitive(m.address, n.address, o.address);
      } else if m.id != n.id && n.id != o.id {
        LeqTransitive(m.id, n.id, o.id);
      }
    }
  }

  lemma {:induction false} InsertSorts(s: seq<Member>, m: Member)
    requires Sorted(s)
    ensures Sorted(Insert(s, m)) && forall x :: x in Insert(s, m) <==> x == m || x in s
  {
    if s != [] {
      if Ordered(m, s[0]) {
        forall i | 0 <= i < |s| ensures Ordered(m, s[i]) {
          OrderedTotal(m, s[0], s[i]);
        }
      } else {
        OrderedTotal(m, s[0], m);
        InsertSorts(s[1..], m);
        var t := Insert(s[1..], m);
        forall i | 0 <= i < |t| ensures Ordered(s[0], t[i]) {
          assert t[i] in t;
        }
        assert forall x :: x in s <==> x == s[0] || x in s[1..];
      }
    }
  }

  lemma {:induction false} SortSorts(s: seq<Member>)
    ensures Sorted(SortMembers(s)) && forall x :: x in SortMembers(s) <==> x in s
  {
    if s != [] {
      SortSorts(s[1..]);
      InsertSorts(SortMembers(s[1..]), s[0]);
      assert forall x :: x in s <==> x == s[0] || x in s[1..];
    }
  }

  // ---- The update ----

  class Directory {
    const validAddress: Text -> bool
    var members: seq<Member>

    constructor (validAddress: Text -> bool)
      ensures members == [] && this.validAddress == validAddress
    {
      this.validAddress := validAddress;
      members := [];
    }

    predicate Acceptable(m: Member) {
      m.id != [] && validAddress(m.address)
    }

    /** Publishes the normalised members, or leaves the snapshot alone when any input is invalid. */
    method Update(input: seq<Member>) returns (ok: bool)
      modifies this
      ensures ok <==> forall m :: m in input ==> Acceptable(m)
      ensures ok ==> Normal(members, input)
      ensures !ok ==> members == old(members)
    {
      var sorted := SortMembers(input);
      SortSorts(input);
      var normalized := [];
      for i := 0 to |sorted|
        invariant members == old(members)
        invariant forall j :: 0 <= j < i ==> Acceptable(sorted[j])
        invariant Normal(normalized, sorted[..i])
        invariant i > 0 ==> normalized != [] && normalized[|normalized| - 1].id == sorted[i - 1].id
      {
        var m := sorted[i];
        if m.id == [] || !validAddress(m.address) {
          assert m in sorted && m in input && !Acceptable(m);
          return false;
        }
        assert sorted[..i + 1] == sorted[..i] + [m];
        if |normalized| > 0 && normalized[|normalized| - 1].id == m.id {
          DuplicateSkipped(sorted, i, normalized);
        } else {
          NewIdentityKept(sorted, i, normalized);
          normalized := normalized + [m];
        }
      }
      assert sorted[..|sorted|] == sorted;
      SameInput(normalized, sorted, input);
      if members != normalized {
        members := normalized;
      }
      ok := true;
      assert forall m :: m in input ==> m in sorted;
    }
  }

  lemma SameInput(out: seq<Member>, a: seq<Member>, b: seq<Member>)
    requires Normal(out, a) && forall m :: m in a <==> m in b
    ensures Normal(out, b)
  {
    forall m ensures m in out <==> Least(b, m) {
      assert Least(a, m) <==> Least(b, m);
    }
  }

  lemma DuplicateSkipped(s: seq<Member>, i: nat, out: seq<Member>)
    requires Sorted(s) && i < |s| && Normal(out, s[..i]) && out != [] && out[|out| - 1].id == s[i].id
    ensures Normal(out, s[..i + 1])
  {
    var m, last := s[i], out[|out| - 1];
    assert last in out && Least(s[..i], last);
    assert Leq(last.address, m.address);
    forall x ensures Least(s[..i + 1], x) <==> Least(s[..i], x) {
      assert s[..i + 1] == s[..i] + [m];
      LeqTotal(last.address, m.address);
      if x == m && Least(s[..i + 1], x) { assert Leq(m.address, last.address); }
      if Least(s[..i], x) && x.id == m.id { LeqTransitive(x.address, last.address, m.address); }
    }
  }

  lemma NewIdentityKept(s: seq<Member>, i: nat, out: seq<Member>)
    requires Sorted(s) && i < |s| && Normal(out, s[..i])
    requires i > 0 ==> out != [] && out[|out| - 1].id == s[i - 1].id
    requires out == [] || out[|out| - 1].id != s[i].id
    ensures Normal(out + [s[i]], s[..i + 1])
  {
    var m := s[i];
    assert s[..i + 1] == s[..i] + [m];
    forall j | 0 <= j < i ensures Less(s[j].id, m.id) {
      var prior := s[i - 1];
      assert Ordered(prior, m) && (j < i - 1 ==> Ordered(s[j], prior));
      LeqTotal(prior.id, prior.id);
      LessTransitive(s[j].id, prior.id, m.id);
    }
    assert forall n :: n in s[..i] ==> n.id != m.id;
    LeqTotal(m.address, m.address);
    forall x ensures x in out + [m] <==> Least(s[..i + 1], x) {
      assert x in out <==> Least(s[..i], x);
    }
    forall j | 0 <= j < |out| ensures Less(out[j].id, m.id) {
      assert out[j] in out && Least(s[..i], out[j]);
      var q :| 0 <= q < i && s[q] == out[j];
    }
  }
}
