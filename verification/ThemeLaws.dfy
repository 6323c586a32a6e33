// Walking a built token tree gives back the tokens no later one displaced, in path order,
// and building from the walk gives back the tree.
module ThemeLaws {
  import opened Wrappers
  import opened ThemeTokens
  import Ordinal
  import opened Dotted

  // -- Names -----------------------------------------------------------------

  // The name the walk gives a path.
  function NameAt(prefix: string, p: Path): string
    decreases |p|
  {
    if p == [] then prefix else NameAt(Under(prefix, p[0]), p[1..])
  }

  lemma {:induction false} NameBelow(prefix: string, p: Path)
    requires prefix != "" && p != []
    ensures NameAt(prefix, p) == prefix + "." + Join(p)
    decreases |p|
  {
    if |p| > 1 {
      NameBelow(prefix + "." + p[0], p[1..]);
      assert prefix + "." + p[0] + "." + Join(p[1..]) == prefix + "." + (p[0] + "." + Join(p[1..]));
    }
  }

  // The walk loses an empty first segment only when something follows it.
  lemma {:induction false} NameOfPath(p: Path)
    requires p != [] && (|p| == 1 || p[0] != "")
    ensures NameAt("", p) == Join(p)
  {
    if |p| > 1 {
      NameBelow(p[0], p[1..]);
    }
  }

  // -- The leaf at a path ----------------------------------------------------

  function Lookup(v: Value, p: Path): Option<Value>
    decreases |p|
  {
    if p == [] then (if IsLeaf(v) then Some(v) else None)
    else if v.Obj? && !IsLeaf(v) && p[0] in v.fields then Lookup(v.fields[p[0]], p[1..])
    else None
  }

  predicate Collide(p: Path, q: Path) {
    p <= q || q <= p
  }

  lemma {:induction false} CollideTails(p: Path, q: Path)
    requires p != [] && q != []
    ensures Collide(p, q) <==> p[0] == q[0] && Collide(p[1..], q[1..])
    ensures p == q <==> p[0] == q[0] && p[1..] == q[1..]
  {
    assert p == [p[0]] + p[1..] && q == [q[0]] + q[1..];
  }

  ghost predicate Visible(p: Path) {
    forall k | k in p :: k == "" || k[0] != '$'
  }

  // An insert writes its path and clears what that path runs through or covers.
  lemma {:induction false} InsertLookup(tree: map<string, Value>, segments: Path, leaf: Value, q: Path)
    requires segments != [] && Visible(segments) && IsLeaf(leaf) && "$value" !in tree
    ensures "$value" !in InsertAt(tree, segments, leaf)
    ensures Lookup(Obj(InsertAt(tree, segments, leaf)), q) ==
      if q == segments then Some(leaf) else if Collide(q, segments) then None else Lookup(Obj(tree), q)
    decreases |segments|
  {
    var head := segments[0];
    assert !Hidden(head);
    if q != [] {
      CollideTails(q, segments);
      if |segments| > 1 && q[0] == head {
        var child := GroupIn(tree, head);
        assert forall k | k in segments[1..] :: k in segments;
        InsertLookup(child, segments[1..], leaf, q[1..]);
      }
    }
  }

  // Which leaf ends up at a path.
  function Winner(tokens: seq<Token>, q: Path): Option<Value> {
    if tokens == [] then None else
    var n := |tokens| - 1;
    var p := Split(tokens[n].name);
    if q == p then Some(TokenLeaf(tokens[n]))
    else if Collide(q, p) then None
    else Winner(tokens[..n], q)
  }

  ghost predicate AllVisible(tokens: seq<Token>) {
    forall t | t in tokens :: Visible(Split(t.name))
  }

  lemma {:induction false} BuiltLookup(tokens: seq<Token>, q: Path)
    requires AllVisible(tokens)
    ensures "$value" !in Built(tokens) && Lookup(Obj(Built(tokens)), q) == Winner(tokens, q)
    decreases |tokens|
  {
    if tokens != [] {
      var n := |tokens| - 1;
      BuiltLookup(tokens[..n], q);
      assert tokens[n] in tokens;
      InsertLookup(Built(tokens[..n]), Split(tokens[n].name), TokenLeaf(tokens[n]), q);
    }
  }

  // A token no later one collides with.
  ghost predicate Survives(tokens: seq<Token>, i: nat)
    requires i < |tokens|
  {
    forall j | i < j < |tokens| :: !Collide(Split(tokens[i].name), Split(tokens[j].name))
  }

  lemma {:induction false} WinnerSurvives(tokens: seq<Token>, q: Path) returns (i: nat)
    requires Winner(tokens, q).Some?
    ensures i < |tokens| && Split(tokens[i].name) == q && Survives(tokens, i)
    ensures Winner(tokens, q) == Some(TokenLeaf(tokens[i]))
    decreases |tokens|
  {
    var n := |tokens| - 1;
    if q == Split(tokens[n].name) {
      i := n;
    } else {
      i := WinnerSurvives(tokens[..n], q);
      forall j | i < j < |tokens| ensures !Collide(Split(tokens[i].name), Split(tokens[j].name)) {
        if j < n { assert tokens[..n][j] == tokens[j]; }
      }
    }
  }

  lemma {:induction false} SurvivorWins(tokens: seq<Token>, i: nat)
    requires i < |tokens| && Survives(tokens, i)
    ensures Winner(tokens, Split(tokens[i].name)) == Some(TokenLeaf(tokens[i]))
    decreases |tokens|
  {
    var n := |tokens| - 1;
    if i < n {
      assert !Collide(Split(tokens[i].name), Split(tokens[n].name));
      forall j | i < j < n ensures !Collide(Split(tokens[..n][i].name), Split(tokens[..n][j].name)) {
        assert tokens[..n][j] == tokens[j];
      }
      SurvivorWins(tokens[..n], i);
    }
  }

  // -- The walk, path by path ------------------------------------------------

  datatype Entry = Entry(path: Path, leaf: Value)

  function Prefixed(k: string, es: seq<Entry>): (r: seq<Entry>)
    ensures |r| == |es|
    ensures forall i | 0 <= i < |es| :: r[i] == Entry([k] + es[i].path, es[i].leaf)
  {
    seq(|es|, i requires 0 <= i < |es| => Entry([k] + es[i].path, es[i].leaf))
  }

  function Entries(v: Value): seq<Entry>
    decreases v, 1, 0
  {
    if v.Text? then []
    else if IsLeaf(v) then [Entry([], v)]
    else EntriesOf(v, SortedKeys(v.fields.Keys))
  }

  function EntriesOf(v: Value, keys: seq<string>): seq<Entry>
    requires v.Obj? && forall k | k in keys :: k in v.fields
    decreases v, 0, |keys|
  {
    if keys == [] then []
    else (if Hidden(keys[0]) then [] else Prefixed(keys[0], Entries(v.fields[keys[0]]))) + EntriesOf(v, keys[1..])
  }

  function Named(prefix: string, es: seq<Entry>): (r: seq<Token>)
    ensures |r| == |es|
    ensures forall i | 0 <= i < |es| :: r[i] == ReadLeaf(NameAt(prefix, es[i].path), es[i].leaf)
  {
    seq(|es|, i requires 0 <= i < |es| => ReadLeaf(NameAt(prefix, es[i].path), es[i].leaf))
  }

  lemma {:induction false} WalkEntries(prefix: string, v: Value)
    ensures WalkTokens(prefix, v) == Named(prefix, Entries(v))
    decreases v, 1, 0
  {
    if v.Obj? && !IsLeaf(v) {
      WalkEntriesOf(prefix, v, SortedKeys(v.fields.Keys));
    }
  }

  lemma {:induction false} WalkEntriesOf(prefix: string, v: Value, keys: seq<string>)
    requires v.Obj? && forall k | k in keys :: k in v.fields
    ensures WalkKeys(prefix, v, keys) == Named(prefix, EntriesOf(v, keys))
    decreases v, 0, |keys|
  {
    if keys != [] {
      var k := keys[0];
      WalkEntriesOf(prefix, v, keys[1..]);
      if !Hidden(k) {
        WalkEntries(Under(prefix, k), v.fields[k]);
        NamedPrefixed(prefix, k, Entries(v.fields[k]));
      }
    }
  }

  lemma {:induction false} NamedPrefixed(prefix: string, k: string, es: seq<Entry>)
    ensures Named(prefix, Prefixed(k, es)) == Named(Under(prefix, k), es)
  {
    forall i | 0 <= i < |es| ensures NameAt(prefix, [k] + es[i].path) == NameAt(Under(prefix, k), es[i].path) {
      assert ([k] + es[i].path)[1..] == es[i].path;
    }
  }

  // The entries are the leaves in visible places.
  lemma {:induction false} EntryIs(v: Value, e: Entry)
    ensures e in Entries(v) <==> Visible(e.path) && Lookup(v, e.path) == Some(e.leaf)
    decreases v, 1, 0
  {
    if v.Obj? && !IsLeaf(v) {
      EntryOfIs(v, SortedKeys(v.fields.Keys), e);
    }
  }

  lemma {:induction false} EntryOfIs(v: Value, keys: seq<string>, e: Entry)
    requires v.Obj? && !IsLeaf(v) && forall k | k in keys :: k in v.fields
    ensures e in EntriesOf(v, keys) <==>
      e.path != [] && e.path[0] in keys && Visible(e.path) && Lookup(v, e.path) == Some(e.leaf)
    decreases v, 0, |keys|
  {
    if keys != [] {
      var k := keys[0];
      EntryOfIs(v, keys[1..], e);
      assert keys == [k] + keys[1..];
      if !Hidden(k) {
        var es := Entries(v.fields[k]);
        if e in Prefixed(k, es) {
          var i :| 0 <= i < |es| && Prefixed(k, es)[i] == e;
          EntryIs(v.fields[k], es[i]);
          assert e.path[1..] == es[i].path;
        }
        if e.path != [] && e.path[0] == k && Visible(e.path) && Lookup(v, e.path) == Some(e.leaf) {
          var inner := Entry(e.path[1..], e.leaf);
          EntryIs(v.fields[k], inner);
          assert e.path == [k] + inner.path;
          var i :| 0 <= i < |es| && es[i] == inner;
          assert Prefixed(k, es)[i] == e;
        }
      } else {
        assert e.path != [] && e.path[0] == k ==> !Visible(e.path);
      }
    }
  }

  // Segment by segment, a shorter path first.
  predicate PathLess(p: Path, q: Path) {
    q != [] && (p == [] || Ordinal.Less(p[0], q[0]) || (p[0] == q[0] && PathLess(p[1..], q[1..])))
  }

  ghost predicate InOrder(es: seq<Entry>) {
    forall i, j | 0 <= i < j < |es| :: PathLess(es[i].path, es[j].path)
  }

  lemma {:induction false} EntriesInOrder(v: Value)
    ensures InOrder(Entries(v))
    decreases v, 1, 0
  {
    if v.Obj? && !IsLeaf(v) {
      EntriesOfInOrder(v, SortedKeys(v.fields.Keys));
    }
  }

  lemma {:induction false} EntriesOfInOrder(v: Value, keys: seq<string>)
    requires v.Obj? && !IsLeaf(v) && forall k | k in keys :: k in v.fields
    requires forall i, j | 0 <= i < j < |keys| :: Ordinal.Less(keys[i], keys[j])
    ensures InOrder(EntriesOf(v, keys))
    decreases v, 0, |keys|
  {
    if keys != [] {
      var k := keys[0];
      EntriesOfInOrder(v, keys[1..]);
      if !Hidden(k) {
        var front, back := Prefixed(k, Entries(v.fields[k])), EntriesOf(v, keys[1..]);
        EntriesInOrder(v.fields[k]);
        PrefixedInOrder(k, Entries(v.fields[k]));
        forall i, j | 0 <= i < |front| && 0 <= j < |back| ensures PathLess(front[i].path, back[j].path) {
          EntryOfIs(v, keys[1..], back[j]);
          assert back[j] in back;
          var m :| 0 <= m < |keys[1..]| && keys[1..][m] == back[j].path[0];
          assert Ordinal.Less(keys[0], keys[m + 1]);
        }
      }
    }
  }

  lemma {:induction false} PrefixedInOrder(k: string, es: seq<Entry>)
    requires InOrder(es)
    ensures InOrder(Prefixed(k, es))
  {
    forall i, j | 0 <= i < j < |es| ensures PathLess([k] + es[i].path, [k] + es[j].path) {
      assert ([k] + es[i].path)[1..] == es[i].path && ([k] + es[j].path)[1..] == es[j].path;
    }
  }

  // A token as the manifest writes it: the value, and the type, the description and the role
  // that there are.
  ghost predicate IsTokenObject(v: Value, t: Token) {
    && v.Obj?
    && (forall k :: k in v.fields <==>
          || k == "$value" || (k == "$type" && t.typ != "")
          || (k == "$description" && t.description.Some?) || (k == "$extensions" && t.role.Some?))
    && v.fields["$value"] == Text(t.value)
    && ("$type" in v.fields ==> v.fields["$type"] == Text(t.typ))
    && ("$description" in v.fields ==> v.fields["$description"] == Text(t.description.value))
    && ("$extensions" in v.fields ==>
          v.fields["$extensions"] == Obj(map["fuaran" := Obj(map["role" := Text(t.role.value)])]))
  }

  // A token no later one collides with stands at its path.
  lemma {:induction false} SurvivorStands(tokens: seq<Token>, i: nat)
    requires AllVisible(tokens) && i < |tokens| && Survives(tokens, i)
    ensures var v := Lookup(Obj(Built(tokens)), Split(tokens[i].name)); v.Some? && IsTokenObject(v.value, tokens[i])
  {
    BuiltLookup(tokens, Split(tokens[i].name));
    SurvivorWins(tokens, i);
    LeafIs(tokens[i]);
  }

  lemma {:induction false} LeafIs(t: Token)
    ensures IsTokenObject(TokenLeaf(t), t)
  {
    assert "$type" != "$value" && "$type" != "$description" && "$type" != "$extensions";
    assert "$value" != "$description" && "$value" != "$extensions" && "$description" != "$extensions";
  }

  // -- What the walk of a built tree gives back ------------------------------

  // A name the walk can give back: no segment starts with '$', and the first segment is
  // not empty unless it is the whole name.
  ghost predicate Clean(t: Token) {
    var p := Split(t.name);
    Visible(p) && (|p| == 1 || p[0] != "")
  }

  ghost predicate AllClean(tokens: seq<Token>) {
    forall t | t in tokens :: Clean(t)
  }

  function Walk(tokens: seq<Token>): seq<Token> {
    WalkTokens("", Obj(Built(tokens)))
  }

  lemma {:induction false} LeafReadsBack(t: Token)
    ensures ReadLeaf(t.name, TokenLeaf(t)) == t
  {
  }

  // A clean token read back from its place is itself.
  lemma {:induction false} ReadBack(t: Token)
    requires Clean(t)
    ensures ReadLeaf(NameAt("", Split(t.name)), TokenLeaf(t)) == t
  {
    NameOfPath(Split(t.name));
    JoinSplit(t.name);
    LeafReadsBack(t);
  }

  lemma {:induction false} VisibleAll(tokens: seq<Token>)
    requires AllClean(tokens)
    ensures AllVisible(tokens)
  {
  }

  // The entry at `i` is a survivor's.
  lemma {:induction false} EntryToken(tokens: seq<Token>, e: Entry) returns (i: nat)
    requires AllClean(tokens) && e in Entries(Obj(Built(tokens)))
    ensures i < |tokens| && Survives(tokens, i) && e == Entry(Split(tokens[i].name), TokenLeaf(tokens[i]))
    ensures ReadLeaf(NameAt("", e.path), e.leaf) == tokens[i]
  {
    VisibleAll(tokens);
    EntryIs(Obj(Built(tokens)), e);
    BuiltLookup(tokens, e.path);
    i := WinnerSurvives(tokens, e.path);
    ReadBack(tokens[i]);
  }

  lemma {:induction false} TokenEntry(tokens: seq<Token>, i: nat)
    requires AllClean(tokens) && i < |tokens| && Survives(tokens, i)
    ensures Entry(Split(tokens[i].name), TokenLeaf(tokens[i])) in Entries(Obj(Built(tokens)))
  {
    VisibleAll(tokens);
    var e := Entry(Split(tokens[i].name), TokenLeaf(tokens[i]));
    SurvivorWins(tokens, i);
    BuiltLookup(tokens, e.path);
    EntryIs(Obj(Built(tokens)), e);
  }

  // The walk gives exactly the tokens without a later colliding one, in path order.
  lemma {:induction false} WalkOfBuilt(tokens: seq<Token>)
    requires AllClean(tokens)
    ensures forall t :: t in Walk(tokens) <==> exists i | 0 <= i < |tokens| :: tokens[i] == t && Survives(tokens, i)
    ensures forall i, j | 0 <= i < j < |Walk(tokens)| ::
      PathLess(Split(Walk(tokens)[i].name), Split(Walk(tokens)[j].name))
  {
    var es := Entries(Obj(Built(tokens)));
    var w := Walk(tokens);
    WalkEntries("", Obj(Built(tokens)));
    forall t | t in w ensures exists i | 0 <= i < |tokens| :: tokens[i] == t && Survives(tokens, i) {
      var k :| 0 <= k < |w| && w[k] == t;
      assert es[k] in es;
      var i := EntryToken(tokens, es[k]);
    }
    forall i | 0 <= i < |tokens| && Survives(tokens, i) ensures tokens[i] in w {
      TokenEntry(tokens, i);
      var k :| 0 <= k < |es| && es[k] == Entry(Split(tokens[i].name), TokenLeaf(tokens[i]));
      assert tokens[i] in tokens;
      ReadBack(tokens[i]);
      assert w[k] == tokens[i];
    }
    EntriesInOrder(Obj(Built(tokens)));
    forall k | 0 <= k < |w| ensures Split(w[k].name) == es[k].path {
      assert es[k] in es;
      var i := EntryToken(tokens, es[k]);
    }
  }

  // -- The fixpoint ----------------------------------------------------------

  // A tree of groups that all hold something.
  ghost predicate Full(v: Value)
    decreases v
  {
    v.Obj? && (IsLeaf(v) || (v.fields != map[] && forall k | k in v.fields :: Full(v.fields[k])))
  }

  ghost predicate FullTree(tree: map<string, Value>) {
    "$value" !in tree && forall k | k in tree :: Full(tree[k])
  }

  lemma {:induction false} InsertFull(tree: map<string, Value>, segments: Path, leaf: Value)
    requires segments != [] && Visible(segments) && IsLeaf(leaf) && FullTree(tree)
    ensures FullTree(InsertAt(tree, segments, leaf)) && InsertAt(tree, segments, leaf) != map[]
    decreases |segments|
  {
    var head := segments[0];
    assert !Hidden(head);
    assert head in InsertAt(tree, segments, leaf);
    if |segments| > 1 {
      var child := GroupIn(tree, head);
      assert forall k | k in segments[1..] :: k in segments;
      assert FullTree(child);
      InsertFull(child, segments[1..], leaf);
    }
  }

  lemma {:induction false} BuiltFull(tokens: seq<Token>)
    requires AllVisible(tokens)
    ensures FullTree(Built(tokens))
    decreases |tokens|
  {
    if tokens != [] {
      var n := |tokens| - 1;
      BuiltFull(tokens[..n]);
      assert tokens[n] in tokens;
      InsertFull(Built(tokens[..n]), Split(tokens[n].name), TokenLeaf(tokens[n]));
    }
  }

  lemma {:induction false} FullHolds(v: Value) returns (p: Path)
    requires Full(v)
    ensures Lookup(v, p).Some?
    decreases v
  {
    if IsLeaf(v) {
      p := [];
    } else {
      var k :| k in v.fields;
      var q := FullHolds(v.fields[k]);
      p := [k] + q;
      assert p[1..] == q;
    }
  }

  lemma {:induction false} SameLeaves(v: Value, w: Value)
    requires Full(v) && Full(w) && forall p :: Lookup(v, p) == Lookup(w, p)
    ensures v == w
    decreases v
  {
    assert Lookup(v, []) == Lookup(w, []);
    if !IsLeaf(v) {
      SameGroups(v, w);
    }
  }

  lemma {:induction false} SameGroups(v: Value, w: Value)
    requires v.Obj? && w.Obj? && !IsLeaf(v) && !IsLeaf(w)
    requires (forall k | k in v.fields :: Full(v.fields[k])) && (forall k | k in w.fields :: Full(w.fields[k]))
    requires forall p :: Lookup(v, p) == Lookup(w, p)
    ensures v == w
    decreases v, 0
  {
    forall k ensures k in v.fields <==> k in w.fields {
      if k in v.fields { Reached(v, w, k); }
      if k in w.fields { Reached(w, v, k); }
    }
    forall k | k in v.fields ensures v.fields[k] == w.fields[k] {
      forall p ensures Lookup(v.fields[k], p) == Lookup(w.fields[k], p) {
        assert ([k] + p)[1..] == p;
        assert Lookup(v, [k] + p) == Lookup(w, [k] + p);
      }
      SameLeaves(v.fields[k], w.fields[k]);
    }
  }

  lemma {:induction false} Reached(v: Value, w: Value, k: string)
    requires v.Obj? && w.Obj? && !IsLeaf(v) && !IsLeaf(w) && k in v.fields && Full(v.fields[k])
    requires forall p :: Lookup(v, p) == Lookup(w, p)
    ensures k in w.fields
  {
    var q := FullHolds(v.fields[k]);
    assert ([k] + q)[1..] == q;
    assert Lookup(v, [k] + q) == Lookup(w, [k] + q);
  }

  // In the walk no token collides with another, so each wins its own path.
  lemma {:induction false} WalkApart(tokens: seq<Token>, a: nat, b: nat)
    requires AllClean(tokens) && a < b < |Walk(tokens)|
    ensures !Collide(Split(Walk(tokens)[a].name), Split(Walk(tokens)[b].name))
  {
    WalkOfBuilt(tokens);
    var s, t := Walk(tokens)[a], Walk(tokens)[b];
    assert s in Walk(tokens) && t in Walk(tokens);
    var i :| 0 <= i < |tokens| && tokens[i] == s && Survives(tokens, i);
    var j :| 0 <= j < |tokens| && tokens[j] == t && Survives(tokens, j);
    assert PathLess(Split(s.name), Split(t.name));
    NotBefore(Split(s.name));
  }

  lemma {:induction false} NotBefore(p: Path)
    ensures !PathLess(p, p)
  {
    if p != [] {
      Ordinal.Trichotomy(p[0], p[0]);
      NotBefore(p[1..]);
    }
  }

  lemma {:induction false} SameWinner(tokens: seq<Token>, q: Path)
    requires AllClean(tokens)
    ensures AllClean(Walk(tokens)) && Winner(Walk(tokens), q) == Winner(tokens, q)
  {
    var w := Walk(tokens);
    WalkOfBuilt(tokens);
    forall i | 0 <= i < |w| ensures Survives(w, i) {
      forall j | i < j < |w| ensures !Collide(Split(w[i].name), Split(w[j].name)) {
        WalkApart(tokens, i, j);
      }
    }
    if Winner(tokens, q).Some? {
      var i := WinnerSurvives(tokens, q);
      assert tokens[i] in w;
      var k :| 0 <= k < |w| && w[k] == tokens[i];
      SurvivorWins(w, k);
    }
    if Winner(w, q).Some? {
      var k := WinnerSurvives(w, q);
      assert w[k] in w;
      var i :| 0 <= i < |tokens| && tokens[i] == w[k] && Survives(tokens, i);
      SurvivorWins(tokens, i);
    }
  }

  // Build, walk, build is build; and so walk, build, walk is walk.
  lemma {:induction false} Fixpoint(tokens: seq<Token>)
    requires AllClean(tokens)
    ensures Built(Walk(tokens)) == Built(tokens) && Walk(Walk(tokens)) == Walk(tokens)
  {
    var v, w := Obj(Built(tokens)), Obj(Built(Walk(tokens)));
    SameWinner(tokens, []);
    VisibleAll(tokens);
    VisibleAll(Walk(tokens));
    BuiltFull(tokens);
    BuiltFull(Walk(tokens));
    forall p ensures Lookup(v, p) == Lookup(w, p) {
      BuiltLookup(tokens, p);
      BuiltLookup(Walk(tokens), p);
      SameWinner(tokens, p);
    }
    SameGroups(v, w);
  }

  // -- Exactly the clean names survive ---------------------------------------

  lemma {:induction false} NameLength(p: Path)
    requires p != []
    ensures |NameAt("", p)| <= |Join(p)|
    ensures |p| > 1 && p[0] == "" ==> |NameAt("", p)| < |Join(p)|
    decreases |p|
  {
    if |p| == 1 || p[0] != "" {
      NameOfPath(p);
    } else {
      NameLength(p[1..]);
    }
  }

  lemma {:induction false} NameGrows(prefix: string, p: Path)
    ensures |NameAt(prefix, p)| >= |prefix|
    decreases |p|
  {
    if p != [] {
      NameGrows(Under(prefix, p[0]), p[1..]);
    }
  }

  // The walk of a single path: its name at most, and less when a segment hides it.
  lemma {:induction false} ChainNames(prefix: string, segments: Path, leaf: Value, x: Token)
    requires segments != [] && IsLeaf(leaf)
    requires x in WalkTokens(prefix, Obj(InsertAt(map[], segments, leaf)))
    ensures |x.name| <= |NameAt(prefix, segments)|
    ensures !Visible(segments) ==> |x.name| < |NameAt(prefix, segments)|
    decreases |segments|
  {
    var head := segments[0];
    var tree := Obj(InsertAt(map[], segments, leaf));
    NameGrows(Under(prefix, head), segments[1..]);
    if head != "$value" {
      assert tree.fields.Keys == {head};
      OneKey(prefix, tree, head);
      assert !Hidden(head);
      if |segments| > 1 {
        ChainNames(Under(prefix, head), segments[1..], leaf, x);
        assert segments == [head] + segments[1..];
      }
    }
  }

  lemma {:induction false} OneKey(prefix: string, tree: Value, head: string)
    requires tree.Obj? && !IsLeaf(tree) && tree.fields.Keys == {head}
    ensures WalkTokens(prefix, tree) == if Hidden(head) then [] else WalkTokens(Under(prefix, head), tree.fields[head])
  {
    var keys := SortedKeys({head});
    assert Least({head}) in {head};
    assert Least({head}) == head && {head} - {head} == {};
    assert SortedKeys({}) == [];
    assert keys == [head] + SortedKeys({head} - {head});
    assert keys == [head];
    assert keys[1..] == [];
    assert WalkKeys(prefix, tree, keys[1..]) == [];
  }

  // A token alone is read back exactly when its name is clean.
  lemma {:induction false} CleanExactly(t: Token)
    ensures Walk([t]) == [t] <==> Clean(t)
  {
    var p := Split(t.name);
    JoinSplit(t.name);
    if Clean(t) {
      WalkOfBuilt([t]);
      assert Survives([t], 0);
      var w := Walk([t]);
      assert t in w;
      if |w| > 1 {
        assert w[0] in w && w[1] in w;
        NotBefore(p);
      }
    } else if Walk([t]) == [t] {
      assert [t][..0] == [];
      assert Built([t]) == InsertAt(map[], p, TokenLeaf(t));
      assert t in Walk([t]);
      ChainNames("", p, TokenLeaf(t), t);
      NameLength(p);
    }
  }
}
