// The token tree as it is built: nested field maps shared by reference and filled in place.
module ThemeBuild {
  import opened ThemeTokens
  import opened Dotted

  // A finished leaf, or a group whose map is filled later through the same reference.
  datatype Entry = Done(leaf: Value) | Group(fields: FieldMap)

  class FieldMap {
    var entries: map<string, Entry>
    ghost var Repr: set<object>

    // Groups nest without sharing.
    ghost predicate Valid()
      reads this, Repr
      decreases Repr
    {
      && this in Repr
      && (forall k | k in entries && entries[k].Done? :: IsLeaf(entries[k].leaf))
      && (forall k | k in entries && entries[k].Group? :: Below(entries[k].fields) && entries[k].fields.Valid())
      && (forall k, l | k in entries && l in entries && k != l && entries[k].Group? && entries[l].Group? ::
            entries[k].fields.Repr !! entries[l].fields.Repr)
    }

    ghost predicate Below(c: FieldMap)
      reads this, Repr
    {
      c in Repr && c.Repr <= Repr - {this}
    }

    // The tree the map stands for.
    ghost function Tree(): map<string, Value>
      reads this, Repr
      requires Valid()
      decreases Repr, 1
    {
      map k | k in entries :: At(k)
    }

    ghost function At(k: string): Value
      reads this, Repr
      requires Valid() && k in entries
      decreases Repr, 0
    {
      match entries[k]
      case Done(leaf) => leaf
      case Group(fields) => Obj(fields.Tree())
    }

    constructor ()
      ensures Valid() && fresh(Repr) && Tree() == map[]
    {
      entries := map[];
      Repr := {this};
    }

    predicate IsLeafMap()
      reads this
    {
      "$value" in entries
    }

    // Place a leaf at a path. A group is written into the map first and filled afterwards.
    method Insert(segments: Path, leaf: Value)
      requires Valid() && IsLeaf(leaf)
      modifies Repr
      ensures Valid() && fresh(Repr - old(Repr))
      ensures Tree() == InsertAt(old(Tree()), segments, leaf)
      decreases |segments|, 0
    {
      if segments == [] {
        return;
      }
      var head := segments[0];
      if |segments| == 1 {
        PutLeaf(head, leaf);
        return;
      }
      OpenGroup(head);
      ghost var grouped := Tree();
      Fill(head, segments[1..], leaf);
      assert Tree() == grouped[head := Obj(InsertAt(GroupIn(old(Tree()), head), segments[1..], leaf))];
    }

    method PutLeaf(head: string, leaf: Value)
      requires Valid() && IsLeaf(leaf)
      modifies this
      ensures Valid() && Repr == old(Repr) && Tree() == old(Tree())[head := leaf]
    {
      entries := entries[head := Done(leaf)];
    }

    // A group at a key, an empty one in place of anything that is not a group or is a leaf.
    method OpenGroup(head: string)
      requires Valid()
      modifies this
      ensures Valid() && fresh(Repr - old(Repr))
      ensures head in entries && entries[head].Group?
      ensures entries[head].fields.Tree() == GroupIn(old(Tree()), head)
      ensures Tree() == old(Tree())[head := Obj(entries[head].fields.Tree())]
    {
      assert head in entries ==> Tree()[head] == At(head);
      if !(head in entries && entries[head].Group? && !entries[head].fields.IsLeafMap()) {
        var empty := new FieldMap();
        PutGroup(head, empty);
      }
      assert Tree()[head] == At(head);
    }

    method PutGroup(head: string, group: FieldMap)
      requires Valid() && group.Valid() && group.Repr !! Repr
      modifies this
      ensures Valid() && Repr == old(Repr) + group.Repr
      ensures entries == old(entries)[head := Group(group)] && Tree() == old(Tree())[head := Obj(group.Tree())]
    {
      entries := entries[head := Group(group)];
      Repr := Repr + group.Repr;
      assert Valid() by {
        forall k | k in entries && k != head && entries[k].Group?
          ensures Below(entries[k].fields) && entries[k].fields.Valid() && entries[k].fields.Repr !! group.Repr
        {
          assert old(Below(entries[k].fields));
        }
      }
      assert forall k | k in entries && k != head :: At(k) == old(At(k));
    }

    // Go on inside the group at a key; the other entries share nothing with it.
    method Fill(head: string, rest: Path, leaf: Value)
      requires Valid() && IsLeaf(leaf) && head in entries && entries[head].Group?
      modifies Repr
      ensures Valid() && fresh(Repr - old(Repr))
      ensures Tree() == old(Tree())[head := Obj(InsertAt(old(entries[head].fields.Tree()), rest, leaf))]
      decreases |rest|, 1
    {
      var child := entries[head].fields;
      child.Insert(rest, leaf);
      Repr := Repr + child.Repr;
      Refilled(head);
    }

    // A group filled in place leaves the map well formed and every other entry as it was.
    twostate lemma {:induction false} Refilled(head: string)
      requires old(Valid()) && entries == old(entries) && head in entries && entries[head].Group?
      requires var child := entries[head].fields;
        && child.Valid() && fresh(child.Repr - old(child.Repr)) && Repr == old(Repr) + child.Repr
        && unchanged(old(Repr) - {this} - old(child.Repr))
      ensures Valid()
      ensures forall k | k in entries && k != head :: At(k) == old(At(k))
    {
      forall k | k in entries && k != head && entries[k].Group?
        ensures Below(entries[k].fields) && entries[k].fields.Valid()
        ensures entries[k].fields.Repr !! entries[head].fields.Repr
        ensures entries[k].fields.Tree() == old(entries[k].fields.Tree())
      {
      }
    }
  }

  method TokensTree(tokens: seq<Token>) returns (root: FieldMap)
    ensures root.Valid() && root.Tree() == Built(tokens)
  {
    root := new FieldMap();
    for i := 0 to |tokens|
      invariant root.Valid() && fresh(root.Repr)
      invariant root.Tree() == Built(tokens[..i])
    {
      assert tokens[..i + 1][..i] == tokens[..i];
      root.Insert(Split(tokens[i].name), TokenLeaf(tokens[i]));
    }
    assert tokens[..|tokens|] == tokens;
  }
}
