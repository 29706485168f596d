/** container/list as a contract: a sequence of distinct elements, front first. */
module Lists {
  predicate Unique<T(==)>(s: seq<T>) {
    forall i, j :: 0 <= i < j < |s| ==> s[i] != s[j]
  }

  function IndexOf<T(==)>(s: seq<T>, e: T): (i: nat)
    requires e in s
    ensures i < |s| && s[i] == e && e !in s[..i]
  {
    if s[0] == e then 0 else 1 + IndexOf(s[1..], e)
  }

  /** The list without one of its elements. */
  function Removed<T(==)>(s: seq<T>, e: T): (r: seq<T>)
    requires e in s
    ensures |r| == |s| - 1
    ensures r == s[..IndexOf(s, e)] + s[IndexOf(s, e) + 1..]
  {
    var i := IndexOf(s, e);
    s[..i] + s[i + 1..]
  }

  lemma RemovedMembers<T>(s: seq<T>, e: T)
    requires e in s && Unique(s)
    ensures Unique(Removed(s, e)) && e !in Removed(s, e)
    ensures forall x :: x in Removed(s, e) <==> x in s && x != e
  {
    var i := IndexOf(s, e);
    var r := Removed(s, e);
    assert forall j :: 0 <= j < |r| ==> r[j] == s[if j < i then j else j + 1];
    forall x | x in s && x != e ensures x in r {
      var j :| 0 <= j < |s| && s[j] == x;
      assert r[if j < i then j else j - 1] == x;
    }
  }

  lemma {:induction false} MembersCounted<T>(s: seq<T>)
    requires Unique(s)
    ensures |(set x | x in s)| == |s|
  {
    if s != [] {
      var front, last := s[..|s| - 1], s[|s| - 1];
      MembersCounted(front);
      assert (set x | x in s) == (set x | x in front) + {last} by {
        assert s == front + [last];
      }
    }
  }

  /** As many distinct members as the set has elements: the sequence lists the whole set. */
  lemma Exhausts<T>(s: seq<T>, all: set<T>)
    requires Unique(s) && |s| == |all| && forall i :: 0 <= i < |s| ==> s[i] in all
    ensures forall x :: x in all ==> x in s
  {
    MembersCounted(s);
    var members := set x | x in s;
    assert members <= all;
    assert |all - members| == |all| - |members|;
  }

  lemma FrontMembers<T>(s: seq<T>, e: T)
    requires e in s && Unique(s)
    ensures forall x :: x in [e] + Removed(s, e) <==> x in s
  {
    RemovedMembers(s, e);
  }

  lemma IndexUnique<T>(s: seq<T>, i: nat)
    requires Unique(s) && i < |s|
    ensures IndexOf(s, s[i]) == i
  {
  }
}
