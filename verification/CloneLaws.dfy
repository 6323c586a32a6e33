// What cloning promises: the copy shares no id with the tree it enters, keeps the source's
// shape under an injective renaming, and its insert is never refused as a duplicate.
module CloneLaws {
  import opened Wrappers
  import opened Tree
  import opened Ops
  import opened Placements
  import opened Clone
  import opened PlacementLaws
  import S = ApplySafety
  import V = ApplyVerdict
  import PV = PlacementVerdict

  // A renaming minted against `base`: new names outside it, no two the same.
  ghost predicate Minted(rename: Renaming, base: set<Id>) {
    && (forall k | k in rename :: rename[k] !in base)
    && (forall j, k | j in rename && k in rename && rename[j] == rename[k] :: j == k)
  }

  lemma {:induction false} RenameMeans<S(!new)>(
    mint: FreshIds<S>, state: S, existing: set<Id>, taken: set<Id>, ids: seq<Id>, rename: Renaming, base: set<Id>)
    requires Honest(mint) && Minted(rename, base) && base <= taken && rename.Values <= taken
    ensures var r := RenameFrom(mint, state, existing, taken, ids, rename);
      && Minted(r, base)
      && (forall k :: k in r <==> k in rename || (k in ids && k in existing))
    decreases |ids|
  {
    if ids != [] {
      if ids[0] !in existing || ids[0] in rename {
        RenameMeans(mint, state, existing, taken, ids[1..], rename, base);
      } else {
        var (next, minted) := mint(state, ids[0], taken);
        assert mint(state, ids[0], taken).1 !in taken;
        var wider := rename[ids[0] := minted];
        forall k | k in rename ensures wider[k] in rename.Values {
        }
        assert Minted(wider, base);
        assert wider.Values <= taken + {minted};
        RenameMeans(mint, next, existing, taken + {minted}, ids[1..], wider, base);
      }
    }
  }

  // The renaming of a clone: exactly the colliding ids, to ids new to both trees.
  lemma {:induction false} RenamingMeans<S(!new)>(mint: FreshIds<S>, state: S, targetRoot: Node, incoming: Node)
    requires Honest(mint)
    ensures var r := RenamingFor(mint, state, targetRoot, incoming);
      && Minted(r, IdSet(targetRoot) + IdSet(incoming))
      && r.Keys == IdSet(incoming) * IdSet(targetRoot)
  {
    var base := IdSet(targetRoot) + IdSet(incoming);
    RenameMeans(mint, state, IdSet(targetRoot), base, AllIds(incoming), map[], base);
  }

  // Minted by the default strategy, when these ids were taken.
  ghost predicate CopyNamedIn(base: set<Id>, x: Id, id: Id, r: Renaming) {
    exists taken :: base <= taken <= base + r.Values && IsCopyName(x, taken, id)
  }

  // Under the default strategy every colliding id is given the first free copy name, the names
  // given before it being taken too.
  lemma {:induction false} CopyNames(targetRoot: Node, incoming: Node, x: Id)
    ensures var r := RenamingFor(DerivedStrategy(), (), targetRoot, incoming);
      x in r ==> CopyNamedIn(IdSet(targetRoot) + IdSet(incoming), x, r[x], r)
  {
    var base := IdSet(targetRoot) + IdSet(incoming);
    NamesFrom(base, IdSet(targetRoot), base, AllIds(incoming), map[], x);
  }

  lemma {:induction false} NamesFrom(
    base: set<Id>, existing: set<Id>, taken: set<Id>, ids: seq<Id>, rename: Renaming, x: Id)
    requires base <= taken <= base + rename.Values
    requires x in rename ==> CopyNamedIn(base, x, rename[x], rename)
    ensures var r := RenameFrom(DerivedStrategy(), (), existing, taken, ids, rename);
      && (x in r ==> CopyNamedIn(base, x, r[x], r))
      && (forall k | k in rename :: k in r && r[k] == rename[k])
    decreases |ids|
  {
    if ids != [] {
      if ids[0] !in existing || ids[0] in rename {
        NamesFrom(base, existing, taken, ids[1..], rename, x);
      } else {
        var minted := DerivedStrategy()((), ids[0], taken).1;
        var wider := rename[ids[0] := minted];
        CopyNamed(ids[0], taken);
        Wider(rename, wider, ids[0]);
        assert minted == wider[ids[0]] && minted in wider.Values;
        if x == ids[0] {
          assert IsCopyName(x, taken, wider[x]);
        } else if x in rename {
          var known :| base <= known <= base + rename.Values && IsCopyName(x, known, rename[x]);
          assert known <= base + wider.Values;
        }
        NamesFrom(base, existing, taken + {minted}, ids[1..], wider, x);
      }
    }
  }

  lemma {:induction false} Wider(rename: Renaming, wider: Renaming, x: Id)
    requires x !in rename && x in wider && wider == rename[x := wider[x]]
    ensures rename.Values <= wider.Values
  {
    forall v | v in rename.Values ensures v in wider.Values {
      var k :| k in rename && rename[k] == v;
      assert wider[k] == v;
    }
  }

  // -- Shape -----------------------------------------------------------------

  lemma {:induction false} RemapSeqConcat(s: seq<Node>, t: seq<Node>, rename: Renaming)
    ensures RemapSeq(s + t, rename) == RemapSeq(s, rename) + RemapSeq(t, rename)
  {
    if s == [] {
      assert s + t == t;
    } else {
      assert (s + t)[1..] == s[1..] + t;
      RemapSeqConcat(s[1..], t, rename);
    }
  }

  lemma {:induction false} RemapSlots(n: Node, rename: Renaming)
    ensures Slots(Remap(n, rename)) == RemapSeq(Slots(n), rename)
  {
    RemapSeqConcat(n.kind.kids, StateNodes(n.state), rename);
    match n.state
    case NoState =>
    case State(_, onLoading, onEmpty) =>
      RemapSeqConcat(OptSeq(onLoading), OptSeq(onEmpty), rename);
      assert RemapSeq(OptSeq(onLoading), rename) == OptSeq(RemapOpt(onLoading, rename));
      assert RemapSeq(OptSeq(onEmpty), rename) == OptSeq(RemapOpt(onEmpty, rename));
  }

  // The copy's ids, place by place.
  lemma {:induction false} RemapIds(n: Node, rename: Renaming)
    ensures |AllIds(Remap(n, rename))| == |AllIds(n)|
    ensures forall i | 0 <= i < |AllIds(n)| :: AllIds(Remap(n, rename))[i] == Renamed(rename, AllIds(n)[i])
    decreases Size(n), 0
  {
    SlotSizes(n);
    RemapSlots(n, rename);
    RemapIdsSeq(Slots(n), rename);
  }

  lemma {:induction false} RemapIdsSeq(s: seq<Node>, rename: Renaming)
    ensures |AllIdsSeq(RemapSeq(s, rename))| == |AllIdsSeq(s)|
    ensures forall i | 0 <= i < |AllIdsSeq(s)| :: AllIdsSeq(RemapSeq(s, rename))[i] == Renamed(rename, AllIdsSeq(s)[i])
    decreases SizeSeq(s), 1
  {
    if s != [] {
      RemapIds(s[0], rename);
      RemapIdsSeq(s[1..], rename);
      assert RemapSeq(s, rename)[1..] == RemapSeq(s[1..], rename);
      RenamedConcat(
        AllIds(s[0]), AllIdsSeq(s[1..]), AllIds(Remap(s[0], rename)), AllIdsSeq(RemapSeq(s[1..], rename)), rename);
    }
  }

  lemma {:induction false} RenamedConcat(
    front: seq<Id>, back: seq<Id>, newFront: seq<Id>, newBack: seq<Id>, rename: Renaming)
    requires |newFront| == |front| && |newBack| == |back|
    requires forall i | 0 <= i < |front| :: newFront[i] == Renamed(rename, front[i])
    requires forall i | 0 <= i < |back| :: newBack[i] == Renamed(rename, back[i])
    ensures forall i | 0 <= i < |front + back| :: (newFront + newBack)[i] == Renamed(rename, (front + back)[i])
  {
  }

  // Renaming back is the identity on the shape and everything in it.
  lemma {:induction false} RemapBack(n: Node, rename: Renaming, back: Renaming)
    requires forall x | x in AllIds(n) :: Renamed(back, Renamed(rename, x)) == x
    ensures Remap(Remap(n, rename), back) == n
    decreases n
  {
    SlotSizes(n);
    assert n.id == AllIds(n)[0];
    IdsOfParts(n);
    RemapSeqBack(n.kind.kids, rename, back);
    match n.state
    case NoState =>
    case State(_, onLoading, onEmpty) =>
      if onLoading.Some? { RemapBack(onLoading.value, rename, back); }
      if onEmpty.Some? { RemapBack(onEmpty.value, rename, back); }
      OptBack(onLoading, rename, back);
      OptBack(onEmpty, rename, back);
  }

  lemma {:induction false} OptBack(o: Option<Node>, rename: Renaming, back: Renaming)
    requires o.Some? ==> Remap(Remap(o.value, rename), back) == o.value
    ensures RemapOpt(RemapOpt(o, rename), back) == o
  {
  }

  lemma {:induction false} RemapSeqBack(s: seq<Node>, rename: Renaming, back: Renaming)
    requires forall x | x in AllIdsSeq(s) :: Renamed(back, Renamed(rename, x)) == x
    ensures RemapSeq(RemapSeq(s, rename), back) == s
    decreases s
  {
    if s != [] {
      assert AllIdsSeq(s) == AllIds(s[0]) + AllIdsSeq(s[1..]);
      RemapBack(s[0], rename, back);
      RemapSeqBack(s[1..], rename, back);
      assert RemapSeq(s, rename)[1..] == RemapSeq(s[1..], rename);
    }
  }

  lemma {:induction false} IdsConcat(s: seq<Node>, t: seq<Node>)
    ensures AllIdsSeq(s + t) == AllIdsSeq(s) + AllIdsSeq(t)
  {
    if s == [] {
      assert s + t == t;
    } else {
      assert (s + t)[1..] == s[1..] + t;
      IdsConcat(s[1..], t);
    }
  }

  lemma {:induction false} IdsOfParts(n: Node)
    ensures forall x | x in AllIdsSeq(n.kind.kids) :: x in AllIds(n)
    ensures n.state.State? && n.state.onLoading.Some? ==>
      forall x | x in AllIds(n.state.onLoading.value) :: x in AllIds(n)
    ensures n.state.State? && n.state.onEmpty.Some? ==>
      forall x | x in AllIds(n.state.onEmpty.value) :: x in AllIds(n)
  {
    SlotSizes(n);
    IdsConcat(n.kind.kids, StateNodes(n.state));
    match n.state
    case NoState =>
    case State(_, onLoading, onEmpty) =>
      IdsConcat(OptSeq(onLoading), OptSeq(onEmpty));
      if onLoading.Some? { assert AllIdsSeq(OptSeq(onLoading)) == AllIds(onLoading.value) + AllIdsSeq([]); }
      if onEmpty.Some? { assert AllIdsSeq(OptSeq(onEmpty)) == AllIds(onEmpty.value) + AllIdsSeq([]); }
  }

  // -- The laws --------------------------------------------------------------

  lemma {:induction false} IdsDistinct(n: Node)
    ensures UniqueIds(n) <==> forall i, j | 0 <= i < j < |AllIds(n)| :: AllIds(n)[i] != AllIds(n)[j]
  {
    var ids := AllIds(n);
    if UniqueIds(n) {
      forall i, j | 0 <= i < j < |ids| ensures ids[i] != ids[j] {
        if ids[i] == ids[j] {
          S.TwiceInMultiset(ids, i, j);
          OccIds(ids[i], n);
        }
      }
    } else {
      var x :| Occ(x, n) > 1;
      OccIds(x, n);
      var i, j := S.TwoIndices(ids, x);
    }
  }

  // On the ids of the source the renaming is injective, and leads out of the target.
  lemma {:induction false} RenamedApart<S(!new)>(
    mint: FreshIds<S>, state: S, targetRoot: Node, incoming: Node, x: Id, y: Id)
    requires Honest(mint) && x in AllIds(incoming) && y in AllIds(incoming)
    ensures var r := RenamingFor(mint, state, targetRoot, incoming);
      && Renamed(r, x) !in AllIds(targetRoot)
      && (Renamed(r, x) == Renamed(r, y) ==> x == y)
      && (x !in AllIds(targetRoot) ==> Renamed(r, x) == x)
  {
    RenamingMeans(mint, state, targetRoot, incoming);
    var r := RenamingFor(mint, state, targetRoot, incoming);
    var base := IdSet(targetRoot) + IdSet(incoming);
    assert x in base && y in base;
    assert x in r <==> x in IdSet(targetRoot);
  }

  lemma {:induction false} CloneApart<S(!new)>(mint: FreshIds<S>, state: S, targetRoot: Node, incoming: Node)
    requires Honest(mint)
    ensures !SharesId(CloneFor(mint, state, targetRoot, incoming), targetRoot)
  {
    var r := RenamingFor(mint, state, targetRoot, incoming);
    var clone := CloneFor(mint, state, targetRoot, incoming);
    RemapIds(incoming, r);
    forall x | x in AllIds(clone) ensures x !in AllIds(targetRoot) {
      var i :| 0 <= i < |AllIds(clone)| && AllIds(clone)[i] == x;
      RenamedApart(mint, state, targetRoot, incoming, AllIds(incoming)[i], AllIds(incoming)[i]);
    }
  }

  lemma {:induction false} CloneUnique<S(!new)>(mint: FreshIds<S>, state: S, targetRoot: Node, incoming: Node)
    requires Honest(mint) && UniqueIds(incoming)
    ensures UniqueIds(CloneFor(mint, state, targetRoot, incoming))
  {
    var r := RenamingFor(mint, state, targetRoot, incoming);
    var clone := CloneFor(mint, state, targetRoot, incoming);
    RemapIds(incoming, r);
    IdsDistinct(incoming);
    forall i, j | 0 <= i < j < |AllIds(clone)| ensures AllIds(clone)[i] != AllIds(clone)[j] {
      RenamedApart(mint, state, targetRoot, incoming, AllIds(incoming)[i], AllIds(incoming)[j]);
    }
    IdsDistinct(clone);
  }

  function Inverse(r: Renaming): Renaming
    requires forall j, k | j in r && k in r && r[j] == r[k] :: j == k
  {
    map k | k in r :: r[k] := k
  }

  // The copy is the source: renaming back gives it, ids that met no collision are kept in
  // place, and the others are new to both trees.
  lemma {:induction false} CloneShape<S(!new)>(mint: FreshIds<S>, state: S, targetRoot: Node, incoming: Node)
    returns (back: Renaming)
    requires Honest(mint)
    ensures var clone := CloneFor(mint, state, targetRoot, incoming);
      && Remap(clone, back) == incoming
      && |AllIds(clone)| == |AllIds(incoming)|
      && forall i | 0 <= i < |AllIds(incoming)| ::
           var x := AllIds(incoming)[i];
           if x !in AllIds(targetRoot) then AllIds(clone)[i] == x
           else AllIds(clone)[i] !in AllIds(targetRoot) && AllIds(clone)[i] !in AllIds(incoming)
  {
    var r := RenamingFor(mint, state, targetRoot, incoming);
    var base := IdSet(targetRoot) + IdSet(incoming);
    RenamingMeans(mint, state, targetRoot, incoming);
    RemapIds(incoming, r);
    back := Inverse(r);
    forall x | x in AllIds(incoming) ensures Renamed(back, Renamed(r, x)) == x {
      assert x in base;
      if x in r {
        assert r[x] in back;
      }
    }
    RemapBack(incoming, r, back);
    forall i | 0 <= i < |AllIds(incoming)|
      ensures var x := AllIds(incoming)[i];
        var y := AllIds(CloneFor(mint, state, targetRoot, incoming))[i];
        if x !in AllIds(targetRoot) then y == x else y !in AllIds(targetRoot) && y !in AllIds(incoming)
    {
      var x := AllIds(incoming)[i];
      assert x in IdSet(incoming) && (x in r <==> x in IdSet(targetRoot));
    }
  }

  // A paste is refused exactly for its destination or its placement, never as a duplicate.
  lemma {:induction false} PasteRefuses<S(!new)>(
    mint: FreshIds<S>, state: S, targetRoot: Node, incoming: Node, target: Target)
    requires Honest(mint)
    ensures PasteOpWith(mint, state, targetRoot, incoming, target) ==
      var clone := CloneFor(mint, state, targetRoot, incoming);
      if ContainerChildren(targetRoot, target.parentId).Err?
      then Err(ContainerChildren(targetRoot, target.parentId).error)
      else if target.placement.Unrecognised? then Err(UnknownPlacement)
      else if (target.placement.Before? || target.placement.After?)
              && target.placement.anchor !in Ids(FindNode(target.parentId, targetRoot).value.kind.kids)
      then Err(UnknownAnchor)
      else
        var siblings := ContainerChildren(targetRoot, target.parentId).value;
        Ok(Ordered(
          InsertChild(target.parentId, clone), target.parentId, siblings + [clone.id],
          PlacedAs(siblings, clone.id, target.placement).value))
  {
    var clone := CloneFor(mint, state, targetRoot, incoming);
    CloneApart(mint, state, targetRoot, incoming);
    if ContainerChildren(targetRoot, target.parentId).Ok? {
      var siblings := ContainerChildren(targetRoot, target.parentId).value;
      NewSibling(targetRoot, clone, target.parentId);
      OthersConcat(siblings, [clone.id], clone.id);
      OthersNone(siblings, clone.id);
      assert Others([clone.id], clone.id) == [] && siblings + [] == siblings;
    }
  }

  // Otherwise its op applies, refused under the guards only for the limits, and the copy
  // stands in the target as placed.
  lemma {:induction false} PasteLands<S(!new)>(
    mint: FreshIds<S>, state: S, targetRoot: Node, incoming: Node, target: Target, op: Op)
    returns (r: Node)
    requires Honest(mint) && UniqueIds(targetRoot) && UniqueIds(incoming)
    requires PasteOpWith(mint, state, targetRoot, incoming, target) == Ok(op)
    ensures PlaceOp(targetRoot, CloneFor(mint, state, targetRoot, incoming), target) == Ok(op)
    ensures ApplyOne(op, targetRoot) == Ok(r) && FindNode(target.parentId, targetRoot).Some?
    ensures var clone := CloneFor(mint, state, targetRoot, incoming);
      PlacedTable(targetRoot, r, clone, target.parentId, PlacedOrder(targetRoot, clone, target))
    ensures Apply(op, targetRoot).Ok? <==> WithinLimits(r)
    ensures S.WellFormed(targetRoot) ==>
      (Apply(op, targetRoot).Ok? <==> V.Fits(InsertChild(target.parentId, incoming), targetRoot))
  {
    var clone := CloneFor(mint, state, targetRoot, incoming);
    CloneUnique(mint, state, targetRoot, incoming);
    r := PlaceOpLands(targetRoot, clone, target);
    PlaceOpGuarded(targetRoot, clone, target);
    if S.WellFormed(targetRoot) {
      PasteVerdict(mint, state, targetRoot, incoming, target);
    }
  }

  // -- What the guards say of a paste ----------------------------------------

  lemma {:induction false} RemapMeasures(n: Node, rename: Renaming)
    ensures Size(Remap(n, rename)) == Size(n) && Depth(Remap(n, rename)) == Depth(n)
    decreases Size(n), 0
  {
    SlotSizes(n);
    SlotSizes(Remap(n, rename));
    RemapSlots(n, rename);
    RemapSeqMeasures(Slots(n), rename);
  }

  lemma {:induction false} RemapSeqMeasures(s: seq<Node>, rename: Renaming)
    ensures SizeSeq(RemapSeq(s, rename)) == SizeSeq(s) && DepthSeq(RemapSeq(s, rename)) == DepthSeq(s)
    decreases SizeSeq(s), 1
  {
    if s != [] {
      RemapMeasures(s[0], rename);
      RemapSeqMeasures(s[1..], rename);
      assert RemapSeq(s, rename)[1..] == RemapSeq(s[1..], rename);
    }
  }

  // A copy repeats an id exactly when its source does.
  lemma {:induction false} CloneRepeats<S(!new)>(mint: FreshIds<S>, state: S, targetRoot: Node, incoming: Node)
    requires Honest(mint)
    ensures UniqueIds(CloneFor(mint, state, targetRoot, incoming)) <==> UniqueIds(incoming)
  {
    var r := RenamingFor(mint, state, targetRoot, incoming);
    var clone := CloneFor(mint, state, targetRoot, incoming);
    if UniqueIds(incoming) {
      CloneUnique(mint, state, targetRoot, incoming);
    }
    if UniqueIds(clone) {
      RemapIds(incoming, r);
      IdsDistinct(clone);
      forall i, j | 0 <= i < j < |AllIds(incoming)| ensures AllIds(incoming)[i] != AllIds(incoming)[j] {
        assert AllIds(clone)[i] != AllIds(clone)[j];
      }
      IdsDistinct(incoming);
    }
  }

  // The engine's verdict on any paste, read off what is pasted and where: it repeats no id of
  // its own, and the destination has room for it.
  lemma {:induction false} PasteVerdict<S(!new)>(
    mint: FreshIds<S>, state: S, targetRoot: Node, incoming: Node, target: Target)
    requires Honest(mint) && S.WellFormed(targetRoot)
    ensures var made := PasteOpWith(mint, state, targetRoot, incoming, target);
      made.Ok? ==>
        (Apply(made.value, targetRoot).Ok? <==> V.Fits(InsertChild(target.parentId, incoming), targetRoot))
  {
    var clone := CloneFor(mint, state, targetRoot, incoming);
    if PasteOpWith(mint, state, targetRoot, incoming, target).Ok? {
      PV.PlaceOpVerdict(targetRoot, clone, target);
      CloneRepeats(mint, state, targetRoot, incoming);
      RemapMeasures(incoming, RenamingFor(mint, state, targetRoot, incoming));
      V.Single(clone);
      V.Single(incoming);
    }
  }


  // A duplicate is the paste of a node of the tree itself.
  lemma {:induction false} DuplicateIsPaste<S>(mint: FreshIds<S>, state: S, root: Node, source: Id, target: Target)
    requires UniqueIds(root)
    ensures match FindNode(source, root)
      case None => DuplicateOpWith(mint, state, root, source, target) == Err(NoNode)
      case Some(sub) =>
        UniqueIds(sub)
        && DuplicateOpWith(mint, state, root, source, target) == PasteOpWith(mint, state, root, sub, target)
  {
    if FindNode(source, root).Some? {
      UniqueAt(root, FirstPath(source, root).value);
    }
  }

  // -- The shipped strategies ------------------------------------------------

  // Whether a paste may go where the target says, whatever is pasted.
  ghost predicate Admitted(root: Node, target: Target) {
    && ContainerChildren(root, target.parentId).Ok? && !target.placement.Unrecognised?
    && ((target.placement.Before? || target.placement.After?) ==>
          target.placement.anchor in Ids(FindNode(target.parentId, root).value.kind.kids))
  }

  // What the emitted op does to the tree it was made for.
  ghost predicate CopyLands(root: Node, source: Node, clone: Node, target: Target, op: Op) {
    && PlaceOp(root, clone, target) == Ok(op)
    && ApplyOne(op, root).Ok? && FindNode(target.parentId, root).Some?
    && PlacedTable(root, ApplyOne(op, root).value, clone, target.parentId, PlacedOrder(root, clone, target))
    && (Apply(op, root).Ok? <==> WithinLimits(ApplyOne(op, root).value))
    && (S.WellFormed(root) ==> (Apply(op, root).Ok? <==> V.Fits(InsertChild(target.parentId, source), root)))
    && UniqueIds(clone) && !SharesId(clone, root)
    && exists back :: Remap(clone, back) == source
  }

  lemma {:induction false} AnyPaste<S(!new)>(
    mint: FreshIds<S>, state: S, root: Node, incoming: Node, target: Target)
    requires Honest(mint) && UniqueIds(root) && UniqueIds(incoming)
    ensures var made, clone := PasteOpWith(mint, state, root, incoming, target), CloneFor(mint, state, root, incoming);
      && (made.Ok? <==> Admitted(root, target))
      && (made.Ok? ==> CopyLands(root, incoming, clone, target, made.value))
  {
    PasteRefuses(mint, state, root, incoming, target);
    CloneApart(mint, state, root, incoming);
    CloneUnique(mint, state, root, incoming);
    var back := CloneShape(mint, state, root, incoming);
    assert Remap(CloneFor(mint, state, root, incoming), back) == incoming;
    var made := PasteOpWith(mint, state, root, incoming, target);
    if made.Ok? {
      var r := PasteLands(mint, state, root, incoming, target, made.value);
    }
  }

  // The default paste: refused exactly for its destination or placement, and then its op
  // puts a copy with ids of its own where the target says.
  lemma {:induction false} PasteOpLands(root: Node, incoming: Node, target: Target)
    requires UniqueIds(root) && UniqueIds(incoming)
    ensures var made, clone := PasteOp(root, incoming, target), CloneFor(DerivedStrategy(), (), root, incoming);
      && (made.Ok? <==> Admitted(root, target))
      && (made.Ok? ==> CopyLands(root, incoming, clone, target, made.value))
  {
    StrategiesHonest("");
    AnyPaste(DerivedStrategy(), (), root, incoming, target);
  }

  // The default duplicate: refused also when the tree does not hold the source.
  lemma {:induction false} DuplicateOpLands(root: Node, source: Id, target: Target)
    requires UniqueIds(root)
    ensures var made, sub := DuplicateOp(root, source, target), FindNode(source, root);
      && (made.Ok? <==> sub.Some? && Admitted(root, target))
      && (made.Ok? ==>
            var clone := CloneFor(DerivedStrategy(), (), root, sub.value);
            CopyLands(root, sub.value, clone, target, made.value))
  {
    DuplicateIsPaste(DerivedStrategy(), (), root, source, target);
    if FindNode(source, root).Some? {
      PasteOpLands(root, FindNode(source, root).value, target);
    }
  }

  // The same under the counter strategy, from any counter.
  lemma {:induction false} SequentialPasteLands(
    prefix: string, counter: nat, root: Node, incoming: Node, target: Target)
    requires UniqueIds(root) && UniqueIds(incoming)
    ensures var mint := SequentialStrategy(prefix);
      var made, clone := PasteOpWith(mint, counter, root, incoming, target), CloneFor(mint, counter, root, incoming);
      && (made.Ok? <==> Admitted(root, target))
      && (made.Ok? ==> CopyLands(root, incoming, clone, target, made.value))
  {
    StrategiesHonest(prefix);
    AnyPaste(SequentialStrategy(prefix), counter, root, incoming, target);
  }
}
