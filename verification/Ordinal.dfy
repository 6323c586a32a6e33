// Ordinal string order, and lists kept sorted by it.
module Ordinal {
  predicate Less(s: string, t: string) {
    t != [] && (s == [] || s[0] < t[0] || (s[0] == t[0] && Less(s[1..], t[1..])))
  }

  // A proper prefix comes first; otherwise the first difference decides.
  ghost predicate Ascends(s: string, t: string) {
    (|s| < |t| && s == t[..|s|]) || exists k :: FirstDifference(s, t, k) && s[k] < t[k]
  }

  ghost predicate FirstDifference(s: string, t: string, k: int) {
    0 <= k < |s| && k < |t| && s[..k] == t[..k] && s[k] != t[k]
  }

  lemma {:induction false} DifferenceStep(s: string, t: string, k: nat)
    requires s != [] && t != [] && s[0] == t[0]
    ensures FirstDifference(s, t, k + 1) <==> FirstDifference(s[1..], t[1..], k)
  {
    if k + 1 < |s| && k + 1 < |t| {
      assert s[..k + 1] == [s[0]] + s[1..][..k] && t[..k + 1] == [t[0]] + t[1..][..k];
      assert s[1..][..k] == s[..k + 1][1..] && t[1..][..k] == t[..k + 1][1..];
    }
  }

  lemma {:induction false} AscendsStep(s: string, t: string)
    requires s != [] && t != [] && s[0] == t[0]
    ensures Ascends(s, t) <==> Ascends(s[1..], t[1..])
  {
    assert s == [s[0]] + s[1..] && t == [t[0]] + t[1..];
    if |s| < |t| {
      assert t[..|s|] == [t[0]] + t[1..][..|s[1..]|];
    }
    if k :| FirstDifference(s, t, k) && s[k] < t[k] {
      assert k > 0;
      DifferenceStep(s, t, k - 1);
    }
    if k :| FirstDifference(s[1..], t[1..], k) && s[1..][k] < t[1..][k] {
      DifferenceStep(s, t, k);
      assert FirstDifference(s, t, k + 1);
    }
  }

  lemma {:induction false} LessIs(s: string, t: string)
    ensures Less(s, t) <==> Ascends(s, t)
  {
    if s == [] {
      assert t != [] ==> t[..|s|] == s;
    } else if t != [] {
      if s[0] == t[0] {
        LessIs(s[1..], t[1..]);
        AscendsStep(s, t);
      } else {
        assert s[..0] == t[..0];
        assert FirstDifference(s, t, 0);
        assert forall k :: FirstDifference(s, t, k) ==> k == 0;
      }
    }
  }

  lemma {:induction false} Trichotomy(s: string, t: string)
    ensures s == t || Less(s, t) || Less(t, s)
    ensures !(Less(s, t) && Less(t, s)) && (s == t ==> !Less(s, t))
  {
    if s != [] && t != [] {
      Trichotomy(s[1..], t[1..]);
      assert s == [s[0]] + s[1..] && t == [t[0]] + t[1..];
    }
  }

  lemma {:induction false} Transitive(s: string, t: string, u: string)
    requires Less(s, t) && Less(t, u)
    ensures Less(s, u)
  {
    if s != [] && s[0] == t[0] == u[0] {
      Transitive(s[1..], t[1..], u[1..]);
    }
  }

  ghost predicate Sorted(s: seq<string>) {
    forall i, j | 0 <= i < j < |s| :: Less(s[i], s[j])
  }

  // Insert unless present.
  function Insert(x: string, s: seq<string>): seq<string> {
    if s == [] then [x]
    else if x == s[0] then s
    else if Less(x, s[0]) then [x] + s
    else [s[0]] + Insert(x, s[1..])
  }

  function SortInto(xs: seq<string>, s: seq<string>): seq<string> {
    if xs == [] then s else Insert(xs[0], SortInto(xs[1..], s))
  }

  // The distinct members of two lists, in order.
  function SortedUnion(a: seq<string>, b: seq<string>): seq<string> {
    SortInto(a, SortInto(b, []))
  }

  lemma {:induction false} InsertSorted(x: string, s: seq<string>)
    requires Sorted(s)
    ensures Sorted(Insert(x, s))
    ensures forall y :: y in Insert(x, s) <==> y == x || y in s
  {
    if s != [] {
      var t := s[1..];
      Trichotomy(x, s[0]);
      assert s == [s[0]] + t;
      if x == s[0] {
      } else if Less(x, s[0]) {
        forall j | 0 < j < |s| ensures Less(x, s[j]) { Transitive(x, s[0], s[j]); }
        assert Insert(x, s) == [x] + s;
      } else {
        InsertSorted(x, t);
        var r := Insert(x, t);
        forall j | 0 <= j < |r| ensures Less(s[0], r[j]) {
          assert r[j] in r;
          if r[j] in t {
            var k :| 0 <= k < |t| && t[k] == r[j];
            assert s[k + 1] == r[j];
          }
        }
      }
    }
  }

  lemma {:induction false} SortIntoSorted(xs: seq<string>, s: seq<string>)
    requires Sorted(s)
    ensures Sorted(SortInto(xs, s))
    ensures forall y :: y in SortInto(xs, s) <==> y in xs || y in s
  {
    if xs != [] {
      SortIntoSorted(xs[1..], s);
      InsertSorted(xs[0], SortInto(xs[1..], s));
      assert xs == [xs[0]] + xs[1..];
    }
  }

  // A set of strings has one sorted listing.
  lemma {:induction false} SortedUnique(s: seq<string>, t: seq<string>)
    requires Sorted(s) && Sorted(t) && forall y :: y in s <==> y in t
    ensures s == t
  {
    assert s != [] ==> s[0] in t;
    assert t != [] ==> t[0] in s;
    if s != [] && t != [] {
      HeadLeast(s, t);
      HeadLeast(t, s);
      Trichotomy(s[0], t[0]);
      assert s[0] == t[0];
      forall y ensures y in s[1..] <==> y in t[1..] {
        TailMember(s, y);
        TailMember(t, y);
      }
      SortedUnique(s[1..], t[1..]);
      assert s == [s[0]] + s[1..] && t == [t[0]] + t[1..];
    }
  }

  lemma {:induction false} HeadLeast(s: seq<string>, t: seq<string>)
    requires Sorted(s) && Sorted(t) && s != [] && t != [] && s[0] in t
    ensures s[0] == t[0] || Less(t[0], s[0])
  {
    var k :| 0 <= k < |t| && t[k] == s[0];
  }

  lemma {:induction false} TailMember(s: seq<string>, y: string)
    requires Sorted(s) && s != []
    ensures y in s[1..] <==> y in s && y != s[0]
  {
    assert s == [s[0]] + s[1..];
    Trichotomy(y, y);
    if y in s[1..] {
      var k :| 0 <= k < |s[1..]| && s[1..][k] == y;
      assert Less(s[0], s[k + 1]);
    }
  }

  lemma {:induction false} SortedUnionIs(a: seq<string>, b: seq<string>)
    ensures Sorted(SortedUnion(a, b))
    ensures forall y :: y in SortedUnion(a, b) <==> y in a || y in b
  {
    SortIntoSorted(b, []);
    SortIntoSorted(a, SortInto(b, []));
  }

  // The union does not depend on which list came first.
  lemma {:induction false} SortedUnionSymmetric(a: seq<string>, b: seq<string>)
    ensures SortedUnion(a, b) == SortedUnion(b, a)
  {
    SortedUnionIs(a, b);
    SortedUnionIs(b, a);
    SortedUnique(SortedUnion(a, b), SortedUnion(b, a));
  }
}
