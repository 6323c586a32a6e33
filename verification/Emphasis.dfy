// Emphasis resolution: delimiter runs paired into wrappers, the nearest opener first.
module Emphasis {
  import opened Wrappers
  import opened EmphasisTokens

  // No run among the first `n` tokens can close anything before it.
  ghost predicate Settled(toks: seq<Token>, n: nat)
    requires n <= |toks|
  {
    forall i, j | 0 <= i < j < n :: !Pairs(toks[i], toks[j])
  }

  // The nearest token before `closerIdx` that opens for it.
  method FindOpener(toks: seq<Token>, closerIdx: nat) returns (found: Option<nat>)
    requires closerIdx < |toks| && CanClose(toks[closerIdx])
    ensures found.Some? ==> found.value < closerIdx && Pairs(toks[found.value], toks[closerIdx])
    ensures forall k | (if found.Some? then found.value + 1 else 0) <= k < closerIdx :: !Pairs(toks[k], toks[closerIdx])
  {
    var closer := toks[closerIdx];
    var openerIdx := closerIdx;
    while openerIdx > 0
      invariant openerIdx <= closerIdx
      invariant forall k | openerIdx <= k < closerIdx :: !Pairs(toks[k], closer)
    {
      openerIdx := openerIdx - 1;
      var o := toks[openerIdx];
      if o.Run? && o.d.ch == closer.d.ch && o.d.canOpen && o.active && o.d.count > 0 {
        var sumOk := true;
        if (o.d.canClose || closer.d.canOpen) && closer.d.ch != '~' {
          sumOk := (o.d.count + closer.d.count) % 3 != 0 || (o.d.count % 3 == 0 && closer.d.count % 3 == 0);
        }
        if sumOk {
          return Some(openerIdx);
        }
      }
    }
    found := None;
  }

  // What stays of a run after `use` of its delimiters are taken.
  function Leftover(d: Delim, use: nat): seq<Token> {
    if d.count - use > 0 then [Leaf(Text(Repeat(d.ch, d.count - use)))] else []
  }

  function Rebuilt(toks: seq<Token>, found: nat, closerIdx: nat): seq<Token>
    requires found < closerIdx < |toks| && toks[found].Run? && toks[closerIdx].Run?
  {
    var opener, closer := toks[found].d, toks[closerIdx].d;
    var kind := KindOf(opener, closer);
    toks[..found] + Leftover(opener, Width(kind))
    + [Leaf(Wrapped(kind, opener, closer, Flatten(toks[found + 1..closerIdx])))]
    + Leftover(closer, Width(kind)) + toks[closerIdx + 1..]
  }

  lemma {:induction false} LeftoverUnparse(d: Delim, use: nat)
    requires d.count >= use
    ensures UnparseTokens(Leftover(d, use)) + Repeat(d.ch, use) == UnparseToken(Run(d, true))
    ensures Repeat(d.ch, use) + UnparseTokens(Leftover(d, use)) == UnparseToken(Run(d, true))
    ensures Runs(Leftover(d, use)) == 0
  {
    RepeatSplit(d.ch, d.count - use, use);
    RepeatSplit(d.ch, use, d.count - use);
  }

  lemma {:induction false} Parts(toks: seq<Token>, found: nat, closerIdx: nat)
    requires found < closerIdx < |toks|
    ensures toks
         == toks[..found] + [toks[found]] + toks[found + 1..closerIdx] + [toks[closerIdx]] + toks[closerIdx + 1..]
  {
  }

  // Five stretches of tokens, read one after another.
  lemma {:induction false} UnparseFive(a: seq<Token>, b: seq<Token>, c: seq<Token>, d: seq<Token>, e: seq<Token>)
    ensures UnparseTokens(a + b + c + d + e)
         == UnparseTokens(a) + UnparseTokens(b) + UnparseTokens(c) + UnparseTokens(d) + UnparseTokens(e)
    ensures Runs(a + b + c + d + e) == Runs(a) + Runs(b) + Runs(c) + Runs(d) + Runs(e)
  {
    UnparseConcat(a + b + c + d, e);
    UnparseConcat(a + b + c, d);
    UnparseConcat(a + b, c);
    UnparseConcat(a, b);
    RunsConcat(a + b + c + d, e);
    RunsConcat(a + b + c, d);
    RunsConcat(a + b, c);
    RunsConcat(a, b);
  }

  lemma {:induction false} WrapperText(kind: Kind, opener: Delim, closer: Delim, inside: seq<Token>)
    ensures UnparseTokens([Leaf(Wrapped(kind, opener, closer, Flatten(inside)))])
         == Repeat(opener.ch, Width(kind)) + UnparseTokens(inside) + Repeat(closer.ch, Width(kind))
  {
    FlattenUnparse(inside);
    MarksAre(kind, opener.ch);
    MarksAre(kind, closer.ch);
    One(Leaf(Wrapped(kind, opener, closer, Flatten(inside))));
  }

  lemma {:induction false} RebuiltText(toks: seq<Token>, found: nat, closerIdx: nat)
    requires found < closerIdx < |toks| && toks[found].Run? && toks[closerIdx].Run?
    requires var opener, closer := toks[found].d, toks[closerIdx].d;
      var use := Width(KindOf(opener, closer)); opener.count >= use && closer.count >= use
    ensures UnparseTokens(Rebuilt(toks, found, closerIdx)) == UnparseTokens(toks)
    ensures Runs(Rebuilt(toks, found, closerIdx)) < Runs(toks)
  {
    var opener, closer := toks[found].d, toks[closerIdx].d;
    var kind := KindOf(opener, closer);
    var use := Width(kind);
    var inside := toks[found + 1..closerIdx];
    var node := Wrapped(kind, opener, closer, Flatten(inside));
    Parts(toks, found, closerIdx);
    UnparseFive(toks[..found], [toks[found]], inside, [toks[closerIdx]], toks[closerIdx + 1..]);
    UnparseFive(toks[..found], Leftover(opener, use), [Leaf(node)], Leftover(closer, use), toks[closerIdx + 1..]);
    LeftoverUnparse(opener, use);
    LeftoverUnparse(closer, use);
    WrapperText(kind, opener, closer, inside);
    One(toks[found]);
    One(toks[closerIdx]);
    One(Leaf(node));
    SameText(
      UnparseTokens(toks[..found]), UnparseTokens(Leftover(opener, use)), Repeat(opener.ch, use), UnparseTokens(inside),
      Repeat(closer.ch, use), UnparseTokens(Leftover(closer, use)), UnparseTokens(toks[closerIdx + 1..]));
  }

  lemma {:induction false} RebuiltFit(toks: seq<Token>, found: nat, closerIdx: nat)
    requires Fit(toks) && found < closerIdx < |toks| && Pairs(toks[found], toks[closerIdx])
    ensures Fit(Rebuilt(toks, found, closerIdx))
  {
    var opener, closer := toks[found].d, toks[closerIdx].d;
    var kind := KindOf(opener, closer);
    FitAround(toks, found);
    FitAround(toks, closerIdx);
    var inside := toks[found + 1..closerIdx];
    assert inside == toks[..closerIdx][found + 1..];
    FitAround(toks[..closerIdx], found);
    assert FitToken(toks[found]) && FitToken(toks[closerIdx]);
    WrapperFit(opener, closer, inside);
    var middle := Leftover(opener, Width(kind)) + [Leaf(Wrapped(kind, opener, closer, Flatten(inside)))]
                  + Leftover(closer, Width(kind));
    FitJoin(toks[..found], middle);
    FitJoin(toks[..found] + middle, toks[closerIdx + 1..]);
    assert Rebuilt(toks, found, closerIdx) == toks[..found] + middle + toks[closerIdx + 1..];
  }

  // The wrapper, between what is left of its runs.
  lemma {:induction false} WrapperFit(opener: Delim, closer: Delim, inside: seq<Token>)
    requires MayMeet(opener, closer) && Fit(inside)
    requires closer.ch == '~' ==> opener.count != 1 && closer.count != 1
    ensures var kind := KindOf(opener, closer);
      Fit(Leftover(opener, Width(kind)) + [Leaf(Wrapped(kind, opener, closer, Flatten(inside)))]
          + Leftover(closer, Width(kind)))
  {
    var kind := KindOf(opener, closer);
    var wrapper := Wrapped(kind, opener, closer, Flatten(inside));
    FlattenLawful(inside);
    FlattenFlanked(inside);
    assert Lawful(wrapper);
    var lo, lc := Leftover(opener, Width(kind)), Leftover(closer, Width(kind));
    var all := lo + [Leaf(wrapper)] + lc;
    assert all[|lo|] == Leaf(wrapper);
    assert FlankedAt(all, |lo|);
    forall k | 0 <= k < |all| && all[k].Leaf? && all[k].node.Wrapped? ensures FlankedAt(all, k) {
      assert k == |lo|;
    }
  }

  // Wrapping keeps the text, keeps the list fit, and uses up two runs.
  lemma {:induction false} RebuiltKeeps(toks: seq<Token>, found: nat, closerIdx: nat)
    requires Fit(toks) && found < closerIdx < |toks| && Pairs(toks[found], toks[closerIdx])
    ensures var r := Rebuilt(toks, found, closerIdx);
      && UnparseTokens(r) == UnparseTokens(toks) && Fit(r) && Runs(r) < Runs(toks)
      && found < |r| && r[..found] == toks[..found]
  {
    assert toks[found] in toks && toks[closerIdx] in toks;
    RebuiltText(toks, found, closerIdx);
    RebuiltFit(toks, found, closerIdx);
  }

  lemma {:induction false} One(t: Token)
    ensures UnparseTokens([t]) == UnparseToken(t) && Runs([t]) == if t.Run? then 1 else 0
  {
  }

  lemma {:induction false} SameText(a: string, lo: string, o: string, m: string, c: string, lc: string, b: string)
    ensures a + lo + (o + m + c) + lc + b == a + (lo + o) + m + (c + lc) + b
  {
  }

  // -- The rule, without a cursor --------------------------------------------

  // The pair to wrap next: the leftmost closer that has an opener, and its nearest one.
  ghost predicate IsNext(toks: seq<Token>, i: nat, j: nat) {
    && i < j < |toks| && Settled(toks, j)
    && Pairs(toks[i], toks[j]) && forall k | i < k < j :: !Pairs(toks[k], toks[j])
  }

  // Look for the next pair from the start of the list, again and again, until there is none.
  ghost function Reduced(toks: seq<Token>): seq<Token>
    requires Fit(toks)
    decreases Runs(toks)
  {
    if exists i: nat, j: nat :: IsNext(toks, i, j) then
      var i: nat, j: nat :| IsNext(toks, i, j);
      RebuiltKeeps(toks, i, j);
      Reduced(Rebuilt(toks, i, j))
    else toks
  }

  lemma {:induction false} ReducedStep(toks: seq<Token>, i: nat, j: nat)
    requires Fit(toks) && IsNext(toks, i, j)
    ensures Fit(Rebuilt(toks, i, j)) && Reduced(toks) == Reduced(Rebuilt(toks, i, j))
  {
    RebuiltKeeps(toks, i, j);
    forall k: nat, l: nat | IsNext(toks, k, l) ensures k == i && l == j {
      assert l >= j && j >= l;
    }
  }

  // `toks` is `plain` with some closers below `n`, that have no opener, made text.
  ghost predicate Quieted(toks: seq<Token>, plain: seq<Token>, n: nat) {
    && |toks| == |plain|
    && forall k | 0 <= k < |toks| :: toks[k] == plain[k] || (k < n && IsQuiet(toks[k], plain, k))
  }

  ghost predicate IsQuiet(t: Token, plain: seq<Token>, k: nat)
    requires k < |plain|
  {
    && CanClose(plain[k]) && !plain[k].d.canOpen
    && t == Leaf(Text(Repeat(plain[k].d.ch, plain[k].d.count)))
    && forall i | 0 <= i < k :: !Pairs(plain[i], plain[k])
  }

  lemma {:induction false} QuietedPairs(toks: seq<Token>, plain: seq<Token>, n: nat)
    requires Quieted(toks, plain, n)
    ensures forall i, j | 0 <= i < j < |toks| :: Pairs(toks[i], toks[j]) <==> Pairs(plain[i], plain[j])
  {
  }

  lemma {:induction false} QuietedFlatten(toks: seq<Token>, plain: seq<Token>)
    requires |toks| == |plain|
    requires forall k | 0 <= k < |toks| :: Flatten([toks[k]]) == Flatten([plain[k]])
    ensures Flatten(toks) == Flatten(plain)
  {
    if toks != [] {
      assert toks == [toks[0]] + toks[1..] && plain == [plain[0]] + plain[1..];
      FlattenConcat([toks[0]], toks[1..]);
      FlattenConcat([plain[0]], plain[1..]);
      QuietedFlatten(toks[1..], plain[1..]);
    }
  }

  lemma {:induction false} QuietedTexts(toks: seq<Token>, plain: seq<Token>, n: nat)
    requires Quieted(toks, plain, n)
    ensures forall k | 0 <= k < |toks| :: Flatten([toks[k]]) == Flatten([plain[k]])
  {
  }

  // Text made of a hopeless closer stays out of every later step.
  lemma {:induction false} QuietedStep(toks: seq<Token>, plain: seq<Token>, i: nat, j: nat)
    requires Quieted(toks, plain, j) && i < j < |toks| && Pairs(toks[i], toks[j])
    ensures Quieted(Rebuilt(toks, i, j), Rebuilt(plain, i, j), i)
  {
    QuietedTexts(toks, plain, j);
    QuietedFlatten(toks[i + 1..j], plain[i + 1..j]);
    assert toks[j + 1..] == plain[j + 1..];
    var was, now := Rebuilt(plain, i, j), Rebuilt(toks, i, j);
    forall k | 0 <= k < i ensures now[k] == was[k] || IsQuiet(now[k], was, k) {
      assert now[k] == toks[k] && was[k] == plain[k];
    }
  }

  // A closer with no opener, which cannot open either, is text.
  lemma {:induction false} Silenced(toks: seq<Token>, i: nat)
    requires Fit(toks) && i < |toks| && CanClose(toks[i])
    ensures var r := toks[i := Leaf(Text(Repeat(toks[i].d.ch, toks[i].d.count)))];
      UnparseTokens(r) == UnparseTokens(toks) && Fit(r) && Runs(r) < Runs(toks)
  {
    var leaf := Leaf(Text(Repeat(toks[i].d.ch, toks[i].d.count)));
    var r := toks[i := leaf];
    assert toks == toks[..i] + [toks[i]] + toks[i + 1..] + [] + [];
    assert r == toks[..i] + [leaf] + toks[i + 1..] + [] + [];
    UnparseFive(toks[..i], [toks[i]], toks[i + 1..], [], []);
    UnparseFive(toks[..i], [leaf], toks[i + 1..], [], []);
    One(toks[i]);
    One(leaf);
    FitAround(toks, i);
    FitJoin(toks[..i], [leaf]);
    FitJoin(toks[..i] + [leaf], toks[i + 1..]);
    assert r == toks[..i] + [leaf] + toks[i + 1..];
  }

  // -- What every turn of the loop keeps -------------------------------------

  // `toks` is settled below the cursor, and stands for a list the rule reduces as it does `tokens`.
  ghost predicate OnCourse(tokens: seq<Token>, toks: seq<Token>, plain: seq<Token>, n: nat)
    requires Fit(tokens)
  {
    && n <= |toks| && Fit(toks) && UnparseTokens(toks) == UnparseTokens(tokens)
    && Settled(toks, n) && Quieted(toks, plain, n)
    && Fit(plain) && Reduced(plain) == Reduced(tokens)
  }

  ghost predicate NoOpener(toks: seq<Token>, n: nat)
    requires n < |toks|
  {
    forall k | 0 <= k < n :: !Pairs(toks[k], toks[n])
  }

  lemma {:induction false} SettledNext(toks: seq<Token>, n: nat)
    requires n < |toks| && Settled(toks, n) && NoOpener(toks, n)
    ensures Settled(toks, n + 1)
  {
  }

  lemma {:induction false} QuietedNext(toks: seq<Token>, plain: seq<Token>, n: nat)
    requires Quieted(toks, plain, n)
    ensures Quieted(toks, plain, n + 1)
  {
  }

  lemma {:induction false} SkipOnCourse(tokens: seq<Token>, toks: seq<Token>, plain: seq<Token>, n: nat)
    requires Fit(tokens) && OnCourse(tokens, toks, plain, n) && n < |toks| && NoOpener(toks, n)
    ensures OnCourse(tokens, toks, plain, n + 1)
  {
    SettledNext(toks, n);
    QuietedNext(toks, plain, n);
  }

  lemma {:induction false} SilenceOnCourse(tokens: seq<Token>, toks: seq<Token>, plain: seq<Token>, n: nat)
    requires Fit(tokens) && OnCourse(tokens, toks, plain, n)
    requires n < |toks| && CanClose(toks[n]) && !toks[n].d.canOpen && NoOpener(toks, n)
    ensures var r := toks[n := Leaf(Text(Repeat(toks[n].d.ch, toks[n].d.count)))];
      OnCourse(tokens, r, plain, n + 1) && Runs(r) < Runs(toks)
  {
    Silenced(toks, n);
    QuietedPairs(toks, plain, n);
    assert IsQuiet(Leaf(Text(Repeat(toks[n].d.ch, toks[n].d.count))), plain, n);
  }

  lemma {:induction false} WrapOnCourse(tokens: seq<Token>, toks: seq<Token>, plain: seq<Token>, i: nat, n: nat)
    requires Fit(tokens) && OnCourse(tokens, toks, plain, n) && IsNext(toks, i, n)
    ensures OnCourse(tokens, Rebuilt(toks, i, n), Rebuilt(plain, i, n), i) && Runs(Rebuilt(toks, i, n)) < Runs(toks)
  {
    QuietedPairs(toks, plain, n);
    QuietedStep(toks, plain, i, n);
    ReducedStep(plain, i, n);
    RebuiltKeeps(toks, i, n);
  }

  lemma {:induction false} DoneOnCourse(tokens: seq<Token>, toks: seq<Token>, plain: seq<Token>)
    requires Fit(tokens) && OnCourse(tokens, toks, plain, |toks|)
    ensures Flatten(toks) == Flatten(Reduced(tokens))
  {
    QuietedPairs(toks, plain, |toks|);
    QuietedTexts(toks, plain, |toks|);
    QuietedFlatten(toks, plain);
  }

  // Pair until nothing is left to pair. The cursor goes back to where the opener was, and
  // the list may grow, but every such step uses up delimiter runs.
  method Resolve(tokens: seq<Token>) returns (toks: seq<Token>)
    requires Fit(tokens)
    ensures Fit(toks) && UnparseTokens(toks) == UnparseTokens(tokens)
    ensures forall i, j | 0 <= i < j < |toks| :: !LeftToPair(toks[i], toks[j])
    ensures Flatten(toks) == Flatten(Reduced(tokens))
  {
    toks := tokens;
    ghost var plain := tokens;
    var closerIdx: nat := 0;
    while closerIdx < |toks|
      invariant OnCourse(tokens, toks, plain, closerIdx)
      decreases Runs(toks), |toks| - closerIdx
    {
      var closer := toks[closerIdx];
      if !(closer.Run? && closer.d.canClose && closer.active && closer.d.count > 0) {
        SkipOnCourse(tokens, toks, plain, closerIdx);
        closerIdx := closerIdx + 1;
        continue;
      }
      var found := FindOpener(toks, closerIdx);
      if found.None? {
        if !closer.d.canOpen {
          SilenceOnCourse(tokens, toks, plain, closerIdx);
          toks := toks[closerIdx := Leaf(Text(Repeat(closer.d.ch, closer.d.count)))];
        } else {
          SkipOnCourse(tokens, toks, plain, closerIdx);
        }
        closerIdx := closerIdx + 1;
        continue;
      }
      WrapOnCourse(tokens, toks, plain, found.value, closerIdx);
      plain := Rebuilt(plain, found.value, closerIdx);
      toks := Rebuilt(toks, found.value, closerIdx);
      closerIdx := found.value;
    }
    DoneOnCourse(tokens, toks, plain);
    forall i, j | 0 <= i < j < |toks| ensures !LeftToPair(toks[i], toks[j]) {
      PairsIs(toks[i], toks[j]);
    }
  }

  // The resolved inlines stand for the token string, each wrapper for its content between
  // its delimiters and next to what its runs kept; every wrapper, at any depth, is lawful.
  method ProcessEmphasis(tokens: seq<Token>) returns (result: seq<Inline>)
    requires Fit(tokens)
    ensures UnparseAll(result) == UnparseTokens(tokens)
    ensures Flanked(result) && forall n | n in result :: Lawful(n)
    ensures result == Flatten(Reduced(tokens))
  {
    var toks := Resolve(tokens);
    result := [];
    for i := 0 to |toks|
      invariant result == Flatten(toks[..i])
    {
      FlattenNext(toks, i);
      if toks[i].Leaf? {
        result := result + [toks[i].node];
      } else if toks[i].d.count > 0 {
        result := result + [Text(Repeat(toks[i].d.ch, toks[i].d.count))];
      }
    }
    assert toks[..|toks|] == toks;
    FlattenUnparse(toks);
    FlattenLawful(toks);
    FlattenFlanked(toks);
  }
}
