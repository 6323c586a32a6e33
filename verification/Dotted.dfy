// Names cut at their dots.
module Dotted {
  function Split(name: string): (p: seq<string>)
    ensures p != []
  {
    if name == [] then [""]
    else
      var rest := Split(name[1..]);
      if name[0] == '.' then [""] + rest else [[name[0]] + rest[0]] + rest[1..]
  }

  function Join(p: seq<string>): string
    requires p != []
  {
    if |p| == 1 then p[0] else p[0] + "." + Join(p[1..])
  }

  lemma {:induction false} JoinSplit(name: string)
    ensures Join(Split(name)) == name
  {
    if name != [] {
      var rest := Split(name[1..]);
      JoinSplit(name[1..]);
      var p := Split(name);
      if name[0] == '.' {
        assert p[1..] == rest;
      } else if |rest| > 1 {
        assert p[1..] == rest[1..];
      }
    }
  }

  lemma {:induction false} SplitNoDot(s: string)
    requires '.' !in s
    ensures Split(s) == [s]
  {
    if s != [] {
      SplitNoDot(s[1..]);
      assert [s[0]] + s[1..] == s;
    }
  }

  lemma {:induction false} SplitFirst(s: string, t: string)
    requires '.' !in s
    ensures Split(s + "." + t) == [s] + Split(t)
  {
    if s == [] {
      assert s + "." + t == "." + t && ("." + t)[1..] == t;
    } else {
      var whole := s + "." + t;
      assert whole[1..] == s[1..] + "." + t;
      SplitFirst(s[1..], t);
      assert ([s[1..]] + Split(t))[1..] == Split(t);
      assert s == [s[0]] + s[1..];
    }
  }

  // Parts without dots, joined, come apart again.
  lemma {:induction false} SplitJoin(p: seq<string>)
    requires p != [] && forall s | s in p :: '.' !in s
    ensures Split(Join(p)) == p
    decreases |p|
  {
    if |p| == 1 {
      SplitNoDot(p[0]);
    } else {
      SplitJoin(p[1..]);
      SplitFirst(p[0], Join(p[1..]));
    }
  }
}
