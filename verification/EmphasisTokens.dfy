// The token list the emphasis resolver works on, and what it stands for as text.
module EmphasisTokens {
  // A delimiter run. `count` is what is left of it.
  datatype Delim = Delim(ch: char, count: int, canOpen: bool, canClose: bool)

  datatype Kind = Emph | Strong | Strike

  // Everything that is not a delimiter run is opaque source text. A wrapper records the
  // two runs that made it, as they were then; nothing reads them back.
  datatype Inline =
    | Text(text: string)
    | Other(raw: string)
    | Wrapped(kind: Kind, opener: Delim, closer: Delim, kids: seq<Inline>)

  datatype Token = Run(d: Delim, active: bool) | Leaf(node: Inline)

  function Repeat(c: char, n: nat): string {
    seq(n, _ => c)
  }

  lemma {:induction false} RepeatSplit(c: char, m: nat, n: nat)
    ensures Repeat(c, m + n) == Repeat(c, m) + Repeat(c, n)
  {
  }

  // How many delimiters a wrapper takes from each side.
  function Width(kind: Kind): nat {
    if kind.Emph? then 1 else 2
  }

  // -- The pairing rules -----------------------------------------------------

  predicate CanOpen(t: Token) {
    t.Run? && t.d.canOpen && t.active && t.d.count > 0
  }

  predicate CanClose(t: Token) {
    t.Run? && t.d.canClose && t.active && t.d.count > 0
  }

  // Runs of one character pair, unless one of them could do both and their lengths sum to
  // a multiple of three without both being one; strike runs are exempt.
  predicate MayPair(opener: Delim, closer: Delim) {
    && opener.ch == closer.ch
    && ((closer.ch != '~' && (opener.canClose || closer.canOpen) && (opener.count + closer.count) % 3 == 0) ==>
          opener.count % 3 == 0 && closer.count % 3 == 0)
  }

  function KindOf(opener: Delim, closer: Delim): Kind {
    if closer.ch == '~' then Strike
    else if opener.count >= 2 && closer.count >= 2 then Strong
    else Emph
  }

  predicate Pairs(a: Token, b: Token) {
    CanOpen(a) && CanClose(b) && MayPair(a.d, b.d)
  }

  // -- The rules, as a reader of the result sees them ------------------------

  // Two runs of one character, the first able to open and the second to close. Unless they
  // are strike runs, a run that can do both may not bring their lengths to a multiple of three
  // of which they are not multiples themselves.
  predicate MayMeet(opener: Delim, closer: Delim) {
    && opener.ch == closer.ch && opener.canOpen && closer.canClose && opener.count > 0 && closer.count > 0
    && (|| closer.ch == '~'
        || (!opener.canClose && !closer.canOpen)
        || (opener.count + closer.count) % 3 != 0
        || (opener.count % 3 == 0 && closer.count % 3 == 0))
  }

  predicate LeftToPair(a: Token, b: Token) {
    a.Run? && b.Run? && a.active && b.active && MayMeet(a.d, b.d)
  }

  lemma {:induction false} PairsIs(a: Token, b: Token)
    ensures Pairs(a, b) <==> LeftToPair(a, b)
  {
  }

  // Strike for '~'; otherwise strong when both runs held two delimiters at least, and plain
  // emphasis when one of them held a single one.
  predicate KindFits(kind: Kind, opener: Delim, closer: Delim) {
    match kind
    case Strike => closer.ch == '~'
    case Strong => closer.ch != '~' && opener.count >= 2 && closer.count >= 2
    case Emph => closer.ch != '~' && (opener.count == 1 || closer.count == 1)
  }

  // The delimiters of a wrapper on each side.
  function Marks(kind: Kind, c: char): string {
    match kind
    case Emph => [c]
    case Strong => [c, c]
    case Strike => [c, c]
  }

  lemma {:induction false} MarksAre(kind: Kind, c: char)
    ensures Marks(kind, c) == Repeat(c, Width(kind))
  {
  }

  predicate LeavesSome(kind: Kind, d: Delim) {
    d.count > |Marks(kind, d.ch)|
  }

  // The text of the delimiters a wrapper left of a run.
  predicate LeftOf(n: Inline, kind: Kind, d: Delim) {
    LeavesSome(kind, d) && n == Text(Repeat(d.ch, d.count - |Marks(kind, d.ch)|))
  }

  // What a wrapper left of its two runs stands right outside it.
  predicate Flanked(ns: seq<Inline>) {
    forall i | 0 <= i < |ns| && ns[i].Wrapped? :: FlankedBy(ns, i)
  }

  predicate FlankedBy(ns: seq<Inline>, i: nat)
    requires i < |ns| && ns[i].Wrapped?
  {
    var w := ns[i];
    && (LeavesSome(w.kind, w.opener) ==> i > 0 && LeftOf(ns[i - 1], w.kind, w.opener))
    && (LeavesSome(w.kind, w.closer) ==> i + 1 < |ns| && LeftOf(ns[i + 1], w.kind, w.closer))
  }

  // Every wrapper, at any depth, was made from two runs that may meet, by the rule for its kind.
  predicate Lawful(n: Inline) {
    n.Wrapped? ==>
      && MayMeet(n.opener, n.closer) && KindFits(n.kind, n.opener, n.closer)
      && Flanked(n.kids) && forall k | k in n.kids :: Lawful(k)
  }

  // The same for tokens.
  predicate FlankedAt(toks: seq<Token>, i: nat)
    requires i < |toks| && toks[i].Leaf? && toks[i].node.Wrapped?
  {
    var w := toks[i].node;
    && (LeavesSome(w.kind, w.opener) ==>
          i > 0 && toks[i - 1].Leaf? && LeftOf(toks[i - 1].node, w.kind, w.opener))
    && (LeavesSome(w.kind, w.closer) ==>
          i + 1 < |toks| && toks[i + 1].Leaf? && LeftOf(toks[i + 1].node, w.kind, w.closer))
  }

  predicate FlankedTokens(toks: seq<Token>) {
    forall i | 0 <= i < |toks| && toks[i].Leaf? && toks[i].node.Wrapped? :: FlankedAt(toks, i)
  }

  predicate FitToken(t: Token) {
    if t.Run? then t.d.count >= 0 && (t.d.ch == '~' ==> t.d.count != 1) else Lawful(t.node)
  }

  // A token list as the tokenizer makes them, and the resolver keeps them: no negative run,
  // and no single '~'.
  predicate Fit(toks: seq<Token>) {
    FlankedTokens(toks) && forall t | t in toks :: FitToken(t)
  }

  // A run splits a list into two that are fit by themselves.
  lemma {:induction false} FitAround(toks: seq<Token>, i: nat)
    requires Fit(toks) && i < |toks| && toks[i].Run?
    ensures Fit(toks[..i]) && Fit(toks[i + 1..])
  {
    var front, back := toks[..i], toks[i + 1..];
    forall k | 0 <= k < |front| && front[k].Leaf? && front[k].node.Wrapped? ensures FlankedAt(front, k) {
      assert FlankedAt(toks, k);
    }
    forall k | 0 <= k < |back| && back[k].Leaf? && back[k].node.Wrapped? ensures FlankedAt(back, k) {
      assert FlankedAt(toks, i + 1 + k);
    }
  }

  lemma {:induction false} FitJoin(s: seq<Token>, t: seq<Token>)
    requires Fit(s) && Fit(t)
    ensures Fit(s + t)
  {
    var all := s + t;
    forall k | 0 <= k < |all| && all[k].Leaf? && all[k].node.Wrapped? ensures FlankedAt(all, k) {
      if k < |s| {
        assert FlankedAt(s, k);
      } else {
        assert FlankedAt(t, k - |s|);
      }
    }
  }

  // -- What tokens stand for -------------------------------------------------

  function Unparse(n: Inline): string
    decreases n
  {
    match n
    case Text(text) => text
    case Other(raw) => raw
    case Wrapped(kind, opener, closer, kids) =>
      Marks(kind, opener.ch) + UnparseAll(kids) + Marks(kind, closer.ch)
  }

  function UnparseAll(ns: seq<Inline>): string
    decreases ns
  {
    if ns == [] then "" else Unparse(ns[0]) + UnparseAll(ns[1..])
  }

  function UnparseToken(t: Token): string {
    if t.Leaf? then Unparse(t.node) else if t.d.count > 0 then Repeat(t.d.ch, t.d.count) else ""
  }

  function UnparseTokens(toks: seq<Token>): string {
    if toks == [] then "" else UnparseToken(toks[0]) + UnparseTokens(toks[1..])
  }

  lemma {:induction false} UnparseConcat(s: seq<Token>, t: seq<Token>)
    ensures UnparseTokens(s + t) == UnparseTokens(s) + UnparseTokens(t)
  {
    if s == [] {
      assert s + t == t;
    } else {
      assert (s + t)[1..] == s[1..] + t;
      UnparseConcat(s[1..], t);
    }
  }

  // A run becomes text.
  function AsText(d: Delim): seq<Inline> {
    if d.count > 0 then [Text(Repeat(d.ch, d.count))] else []
  }

  function Flatten(toks: seq<Token>): seq<Inline> {
    if toks == [] then []
    else (if toks[0].Leaf? then [toks[0].node] else AsText(toks[0].d)) + Flatten(toks[1..])
  }

  lemma {:induction false} FlattenConcat(s: seq<Token>, t: seq<Token>)
    ensures Flatten(s + t) == Flatten(s) + Flatten(t)
  {
    if s == [] {
      assert s + t == t;
    } else {
      assert (s + t)[1..] == s[1..] + t;
      FlattenConcat(s[1..], t);
    }
  }

  lemma {:induction false} FlattenNext(toks: seq<Token>, i: nat)
    requires i < |toks|
    ensures Flatten(toks[..i + 1])
         == Flatten(toks[..i]) + if toks[i].Leaf? then [toks[i].node] else AsText(toks[i].d)
  {
    assert toks[..i + 1] == toks[..i] + [toks[i]];
    FlattenConcat(toks[..i], [toks[i]]);
  }

  lemma {:induction false} FlattenUnparse(toks: seq<Token>)
    ensures UnparseAll(Flatten(toks)) == UnparseTokens(toks)
  {
    if toks != [] {
      var head := if toks[0].Leaf? then [toks[0].node] else AsText(toks[0].d);
      FlattenUnparse(toks[1..]);
      if head != [] {
        assert (head + Flatten(toks[1..]))[1..] == Flatten(toks[1..]);
      } else {
        assert head + Flatten(toks[1..]) == Flatten(toks[1..]);
      }
    }
  }

  lemma {:induction false} FlattenLawful(toks: seq<Token>)
    requires forall t | t in toks :: FitToken(t)
    ensures forall n | n in Flatten(toks) :: Lawful(n)
  {
    if toks != [] {
      assert FitToken(toks[0]);
      FlattenLawful(toks[1..]);
    }
  }

  // Where an item of the flattened list comes from.
  lemma {:induction false} FlattenFrom(toks: seq<Token>, k: nat) returns (i: nat)
    requires k < |Flatten(toks)|
    ensures i < |toks| && |Flatten(toks[..i])| == k < |Flatten(toks[..i + 1])|
  {
    assert toks[..|toks|] == toks;
    i := 0;
    while |Flatten(toks[..i + 1])| <= k
      invariant i < |toks| && |Flatten(toks[..i])| <= k
      decreases |toks| - i
    {
      assert i + 1 < |toks|;
      i := i + 1;
    }
    FlattenNext(toks, i);
  }

  lemma {:induction false} FlattenPrefix(toks: seq<Token>, i: nat)
    requires i < |toks|
    ensures toks[i].Leaf? ==>
      |Flatten(toks[..i])| < |Flatten(toks)| && Flatten(toks)[|Flatten(toks[..i])|] == toks[i].node
    ensures toks[i].Leaf? ==> |Flatten(toks[..i + 1])| == |Flatten(toks[..i])| + 1
    ensures toks[i].Run? && |Flatten(toks[..i])| < |Flatten(toks[..i + 1])| ==>
      |Flatten(toks[..i])| < |Flatten(toks)| && Flatten(toks)[|Flatten(toks[..i])|].Text?
  {
    FlattenNext(toks, i);
    FlattenConcat(toks[..i + 1], toks[i + 1..]);
    assert toks == toks[..i + 1] + toks[i + 1..];
  }

  lemma {:induction false} FlattenFlanked(toks: seq<Token>)
    requires FlankedTokens(toks)
    ensures Flanked(Flatten(toks))
  {
    var ns := Flatten(toks);
    forall k | 0 <= k < |ns| && ns[k].Wrapped? ensures FlankedBy(ns, k) {
      var i := FlattenFrom(toks, k);
      FlattenPrefix(toks, i);
      assert toks[i].Leaf? && FlankedAt(toks, i);
      if LeavesSome(ns[k].kind, ns[k].opener) {
        FlattenPrefix(toks, i - 1);
      }
      if LeavesSome(ns[k].kind, ns[k].closer) {
        FlattenPrefix(toks, i + 1);
      }
    }
  }

  // The delimiter runs in a list.
  function Runs(toks: seq<Token>): nat {
    if toks == [] then 0 else (if toks[0].Run? then 1 else 0) + Runs(toks[1..])
  }

  lemma {:induction false} RunsConcat(s: seq<Token>, t: seq<Token>)
    ensures Runs(s + t) == Runs(s) + Runs(t)
  {
    if s == [] {
      assert s + t == t;
    } else {
      assert (s + t)[1..] == s[1..] + t;
      RunsConcat(s[1..], t);
    }
  }
}
