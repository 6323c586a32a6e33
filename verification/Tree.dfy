// The decoded UI tree and the structural traversal every engine shares.
//
// A node's immediate sub-nodes ("slots") are its kind's positions followed by
// the placeholders of its state block. A position inside a tree is a path of
// slot indices, so a search answers with a path and a rewrite puts a node at one.
module Tree {
  import opened Wrappers

  type Id = string
  type Fields = map<string, string>
  type Path = seq<nat>

  // `kids` holds the ordered children of a layout kind; for every other kind it
  // holds the single-node arms that are present, then the Switch case children.
  // `fields` is the kind's remaining content as opaque canonical text. `stray` is
  // what storing children on a non-layout kind leaves under the empty key, which
  // nothing reads.
  datatype Kind = Kind(tag: string, fields: Fields, kids: seq<Node>, stray: Stray)

  datatype Stray = NoStray | Stray(children: seq<Node>)

  datatype State = NoState | State(own: string, onLoading: Option<Node>, onEmpty: Option<Node>)

  // The members of a style record; a record names each at most once.
  datatype Member = Direction | Emphasis | Role | Tone | Voice | Weight
  type Style = map<Member, string>

  // An absent envelope slot is None. `extras` holds the members no engine controls.
  datatype Node = Node(
    id: Id, kind: Kind, style: Option<Style>, state: State,
    access: Option<Fields>, tooltip: Option<string>, extras: Fields)

  predicate IsLayoutTag(tag: string) {
    tag in {"Box", "Disclosure", "Modal", "ScrollArea", "SplitPanel", "Stepper", "SummaryList", "Tabs"}
  }

  predicate IsLayout(n: Node) {
    IsLayoutTag(n.kind.tag)
  }

  function Ids(s: seq<Node>): (r: seq<Id>)
    ensures |r| == |s| && forall i | 0 <= i < |s| :: r[i] == s[i].id
  {
    seq(|s|, i requires 0 <= i < |s| => s[i].id)
  }

  // -- Size and slots --------------------------------------------------------

  function Size(n: Node): (r: nat)
    ensures r >= 1
    decreases n
  {
    1 + SizeSeq(n.kind.kids) + SizeState(n.state)
  }

  function SizeSeq(s: seq<Node>): nat
    decreases s
  {
    if s == [] then 0 else Size(s[0]) + SizeSeq(s[1..])
  }

  function SizeState(s: State): nat
    decreases s
  {
    match s
    case NoState => 0
    case State(_, l, e) => SizeOpt(l) + SizeOpt(e)
  }

  function SizeOpt(o: Option<Node>): nat
    decreases o
  {
    match o case None => 0 case Some(n) => Size(n)
  }

  function OptSeq(o: Option<Node>): seq<Node> {
    match o case None => [] case Some(n) => [n]
  }

  function StateNodes(s: State): (r: seq<Node>)
    ensures SizeSeq(r) == SizeState(s)
    ensures |r| <= 2
  {
    match s
    case NoState => []
    case State(_, l, e) => SizeConcat(OptSeq(l), OptSeq(e)); OptSeq(l) + OptSeq(e)
  }

  lemma {:induction false} SizeConcat(s: seq<Node>, t: seq<Node>)
    ensures SizeSeq(s + t) == SizeSeq(s) + SizeSeq(t)
  {
    if s == [] {
      assert s + t == t;
    } else {
      assert (s + t)[1..] == s[1..] + t;
      SizeConcat(s[1..], t);
    }
  }

  lemma {:induction false} SizeMember(s: seq<Node>, i: nat)
    requires i < |s|
    ensures Size(s[i]) <= SizeSeq(s)
  {
    if i > 0 {
      SizeMember(s[1..], i - 1);
    }
  }

  function Slots(n: Node): (r: seq<Node>)
    ensures |r| == |n.kind.kids| + |StateNodes(n.state)|
  {
    n.kind.kids + StateNodes(n.state)
  }

  lemma {:induction false} SlotSizes(n: Node)
    ensures SizeSeq(Slots(n)) + 1 == Size(n)
    ensures forall i {:trigger Size(Slots(n)[i])} | 0 <= i < |Slots(n)| :: Size(Slots(n)[i]) < Size(n)
  {
    SizeConcat(n.kind.kids, StateNodes(n.state));
    forall i | 0 <= i < |Slots(n)| ensures Size(Slots(n)[i]) < Size(n) { SizeMember(Slots(n), i); }
  }

  // Swap one slot: the rebuild closure a slot carries.
  function WithSlot(n: Node, i: nat, c: Node): (r: Node)
    requires i < |Slots(n)|
    ensures Slots(r) == Slots(n)[i := c]
    ensures |r.kind.kids| == |n.kind.kids|
    ensures r.id == n.id && r.kind.tag == n.kind.tag
  {
    if i < |n.kind.kids| then n.(kind := n.kind.(kids := n.kind.kids[i := c]))
    else if i == |n.kind.kids| && n.state.onLoading.Some? then n.(state := n.state.(onLoading := Some(c)))
    else n.(state := n.state.(onEmpty := Some(c)))
  }

  lemma {:induction false} WithSlotSame(n: Node, i: nat)
    requires i < |Slots(n)|
    ensures WithSlot(n, i, Slots(n)[i]) == n
  {
    if i < |n.kind.kids| {
      assert n.kind.kids[i := Slots(n)[i]] == n.kind.kids;
    }
  }

  lemma {:induction false} WithSlotTwice(n: Node, i: nat, c: Node, d: Node)
    requires i < |Slots(n)|
    ensures WithSlot(WithSlot(n, i, c), i, d) == WithSlot(n, i, d)
  {
    if i < |n.kind.kids| {
      assert n.kind.kids[i := c][i := d] == n.kind.kids[i := d];
    }
  }

  // Store an ordered child list. On a kind without one it lands in an unread member.
  function WithKids(n: Node, kids: seq<Node>): (r: Node)
    ensures r.id == n.id
    ensures IsLayout(n) ==> r.kind.kids == kids
    ensures !IsLayout(n) ==> Slots(r) == Slots(n)
  {
    if IsLayout(n) then n.(kind := n.kind.(kids := kids))
    else n.(kind := n.kind.(stray := Stray(kids)))
  }

  // -- Paths -----------------------------------------------------------------

  predicate ValidPath(n: Node, p: Path)
    decreases |p|
  {
    p == [] || (p[0] < |Slots(n)| && ValidPath(Slots(n)[p[0]], p[1..]))
  }

  function NodeAt(n: Node, p: Path): Node
    requires ValidPath(n, p)
    decreases |p|
  {
    if p == [] then n else NodeAt(Slots(n)[p[0]], p[1..])
  }

  function Put(n: Node, p: Path, m: Node): (r: Node)
    requires ValidPath(n, p)
    ensures p != [] ==> r.id == n.id
    ensures m.id == NodeAt(n, p).id ==> r.id == n.id
    decreases |p|
  {
    if p == [] then m else WithSlot(n, p[0], Put(Slots(n)[p[0]], p[1..], m))
  }

  lemma {:induction false} PathConcat(n: Node, p: Path, q: Path)
    requires ValidPath(n, p)
    ensures ValidPath(n, p + q) <==> ValidPath(NodeAt(n, p), q)
    ensures ValidPath(n, p + q) ==> NodeAt(n, p + q) == NodeAt(NodeAt(n, p), q)
    decreases |p|
  {
    if p == [] {
      assert p + q == q;
    } else {
      assert (p + q)[0] == p[0] && (p + q)[1..] == p[1..] + q;
      PathConcat(Slots(n)[p[0]], p[1..], q);
    }
  }

  lemma {:induction false} PathPrefix(n: Node, p: Path, q: Path)
    requires ValidPath(n, p + q)
    ensures ValidPath(n, p) && ValidPath(NodeAt(n, p), q)
    decreases |p|
  {
    if p == [] {
      assert p + q == q;
    } else {
      assert (p + q)[0] == p[0] && (p + q)[1..] == p[1..] + q;
      PathPrefix(Slots(n)[p[0]], p[1..], q);
    }
  }

  lemma {:induction false} SizeAt(n: Node, p: Path)
    requires ValidPath(n, p)
    ensures Size(NodeAt(n, p)) <= Size(n)
    ensures p != [] ==> Size(NodeAt(n, p)) < Size(n)
    decreases |p|
  {
    if p != [] {
      SlotSizes(n);
      SizeAt(Slots(n)[p[0]], p[1..]);
    }
  }

  lemma {:induction false} PutAt(n: Node, p: Path, m: Node)
    requires ValidPath(n, p)
    ensures ValidPath(Put(n, p, m), p) && NodeAt(Put(n, p, m), p) == m
    decreases |p|
  {
    if p != [] {
      PutAt(Slots(n)[p[0]], p[1..], m);
    }
  }

  lemma {:induction false} PutSame(n: Node, p: Path)
    requires ValidPath(n, p)
    ensures Put(n, p, NodeAt(n, p)) == n
    decreases |p|
  {
    if p != [] {
      PutSame(Slots(n)[p[0]], p[1..]);
      WithSlotSame(n, p[0]);
    }
  }

  lemma {:induction false} PutPut(n: Node, p: Path, m: Node, m': Node)
    requires ValidPath(n, p) && ValidPath(Put(n, p, m), p)
    ensures Put(Put(n, p, m), p, m') == Put(n, p, m')
    decreases |p|
  {
    if p != [] {
      PutPut(Slots(n)[p[0]], p[1..], m, m');
      WithSlotTwice(n, p[0], Put(Slots(n)[p[0]], p[1..], m), Put(Slots(n)[p[0]], p[1..], m'));
    }
  }

  // Writing below a path is writing the rewritten sub-node at the path.
  lemma {:induction false} PutConcat(n: Node, p: Path, q: Path, m: Node)
    requires ValidPath(n, p) && ValidPath(NodeAt(n, p), q)
    ensures ValidPath(n, p + q)
    ensures Put(n, p + q, m) == Put(n, p, Put(NodeAt(n, p), q, m))
    decreases |p|
  {
    if p == [] {
      assert p + q == q;
    } else {
      assert (p + q)[0] == p[0] && (p + q)[1..] == p[1..] + q;
      PutConcat(Slots(n)[p[0]], p[1..], q, m);
    }
  }

  // -- Ids, in traversal order -----------------------------------------------

  function AllIds(n: Node): seq<Id>
    decreases Size(n), 0
  {
    SlotSizes(n);
    [n.id] + AllIdsSeq(Slots(n))
  }

  function AllIdsSeq(s: seq<Node>): seq<Id>
    decreases SizeSeq(s), 1
  {
    if s == [] then [] else AllIds(s[0]) + AllIdsSeq(s[1..])
  }

  // How many nodes of the tree hold the id.
  function Occ(x: Id, n: Node): nat
    decreases Size(n), 0
  {
    SlotSizes(n);
    (if n.id == x then 1 else 0) + OccSeq(x, Slots(n))
  }

  function OccSeq(x: Id, s: seq<Node>): nat
    decreases SizeSeq(s), 1
  {
    if s == [] then 0 else Occ(x, s[0]) + OccSeq(x, s[1..])
  }

  lemma {:induction false} OccIds(x: Id, n: Node)
    ensures Occ(x, n) == multiset(AllIds(n))[x]
    ensures x in AllIds(n) <==> Occ(x, n) >= 1
    decreases Size(n), 0
  {
    SlotSizes(n);
    OccIdsSeq(x, Slots(n));
    assert x in AllIds(n) <==> x in multiset(AllIds(n));
  }

  lemma {:induction false} OccIdsSeq(x: Id, s: seq<Node>)
    ensures OccSeq(x, s) == multiset(AllIdsSeq(s))[x]
    decreases SizeSeq(s), 1
  {
    if s != [] {
      OccIds(x, s[0]);
      OccIdsSeq(x, s[1..]);
    }
  }

  ghost predicate UniqueIds(n: Node) {
    forall x :: Occ(x, n) <= 1
  }

  lemma {:induction false} OccConcat(x: Id, s: seq<Node>, t: seq<Node>)
    ensures OccSeq(x, s + t) == OccSeq(x, s) + OccSeq(x, t)
  {
    if s == [] {
      assert s + t == t;
    } else {
      assert (s + t)[1..] == s[1..] + t;
      OccConcat(x, s[1..], t);
    }
  }

  lemma {:induction false} OccSplit(x: Id, s: seq<Node>, i: nat)
    requires i < |s|
    ensures OccSeq(x, s) == OccSeq(x, s[..i]) + Occ(x, s[i]) + OccSeq(x, s[i + 1..])
  {
    assert s == s[..i] + ([s[i]] + s[i + 1..]);
    OccConcat(x, s[..i], [s[i]] + s[i + 1..]);
    assert ([s[i]] + s[i + 1..])[1..] == s[i + 1..];
  }

  lemma {:induction false} OccUpdate(x: Id, s: seq<Node>, i: nat, c: Node)
    requires i < |s|
    ensures OccSeq(x, s[i := c]) == OccSeq(x, s) - Occ(x, s[i]) + Occ(x, c)
  {
    OccSplit(x, s, i);
    OccSplit(x, s[i := c], i);
    assert s[i := c][..i] == s[..i] && s[i := c][i + 1..] == s[i + 1..];
  }

  lemma {:induction false} OccPut(x: Id, n: Node, p: Path, m: Node)
    requires ValidPath(n, p)
    ensures Occ(x, Put(n, p, m)) == Occ(x, n) - Occ(x, NodeAt(n, p)) + Occ(x, m)
    decreases |p|
  {
    if p != [] {
      OccPut(x, Slots(n)[p[0]], p[1..], m);
      OccUpdate(x, Slots(n), p[0], Put(Slots(n)[p[0]], p[1..], m));
    }
  }

  lemma {:induction false} OccAt(x: Id, n: Node, p: Path)
    requires ValidPath(n, p)
    ensures Occ(x, NodeAt(n, p)) <= Occ(x, n)
    decreases |p|
  {
    if p != [] {
      OccAt(x, Slots(n)[p[0]], p[1..]);
      OccSplit(x, Slots(n), p[0]);
    }
  }

  // The first element from a position on that holds the id.
  lemma {:induction false} HolderFrom(x: Id, s: seq<Node>, from: nat) returns (i: nat)
    requires from <= |s| && OccSeq(x, s[from..]) >= 1
    ensures from <= i < |s| && Occ(x, s[i]) >= 1
    ensures OccSeq(x, s[from..]) == Occ(x, s[i]) + OccSeq(x, s[i + 1..])
  {
    i := from;
    while Occ(x, s[i]) == 0
      invariant from <= i < |s| && OccSeq(x, s[i..]) == OccSeq(x, s[from..])
      decreases |s| - i
    {
      assert s[i..][1..] == s[i + 1..];
      i := i + 1;
    }
    assert s[i..][1..] == s[i + 1..];
  }

  lemma {:induction false} HolderOf(x: Id, s: seq<Node>) returns (i: nat)
    requires OccSeq(x, s) >= 1
    ensures i < |s| && Occ(x, s[i]) >= 1
  {
    assert s[0..] == s;
    i := HolderFrom(x, s, 0);
  }

  lemma {:induction false} HoldersOf(x: Id, s: seq<Node>) returns (i: nat, j: nat)
    requires OccSeq(x, s) >= 2
    ensures i <= j < |s| && Occ(x, s[i]) >= 1 && Occ(x, s[j]) >= 1
    ensures i == j ==> Occ(x, s[i]) >= 2
  {
    assert s[0..] == s;
    i := HolderFrom(x, s, 0);
    j := i;
    if Occ(x, s[i]) == 1 {
      j := HolderFrom(x, s, i + 1);
    }
  }

  // Every occurrence has a path, and two occurrences have two.
  lemma {:induction false} PathTo(x: Id, n: Node) returns (p: Path)
    requires Occ(x, n) >= 1
    ensures ValidPath(n, p) && NodeAt(n, p).id == x
    decreases Size(n)
  {
    SlotSizes(n);
    if n.id == x {
      p := [];
    } else {
      var i := HolderOf(x, Slots(n));
      var q := PathTo(x, Slots(n)[i]);
      p := [i] + q;
      assert p[1..] == q;
    }
  }

  lemma {:induction false} TwoPaths(x: Id, n: Node) returns (p: Path, q: Path)
    requires Occ(x, n) >= 2
    ensures ValidPath(n, p) && ValidPath(n, q) && p != q
    ensures NodeAt(n, p).id == NodeAt(n, q).id == x
    decreases Size(n)
  {
    SlotSizes(n);
    if n.id == x {
      p := [];
      var i := HolderOf(x, Slots(n));
      var q' := PathTo(x, Slots(n)[i]);
      q := [i] + q';
      assert q[1..] == q';
    } else {
      var i, j := HoldersOf(x, Slots(n));
      var p', q';
      if i == j {
        p', q' := TwoPaths(x, Slots(n)[i]);
      } else {
        p' := PathTo(x, Slots(n)[i]);
        q' := PathTo(x, Slots(n)[j]);
      }
      p, q := [i] + p', [j] + q';
      assert p[1..] == p' && q[1..] == q';
    }
  }

  lemma {:induction false} PathOcc(n: Node, p: Path)
    requires ValidPath(n, p)
    ensures Occ(NodeAt(n, p).id, n) >= 1
    decreases |p|
  {
    OccAt(NodeAt(n, p).id, n, p);
  }

  lemma {:induction false} PathsOcc(n: Node, p: Path, q: Path)
    requires ValidPath(n, p) && ValidPath(n, q) && p != q
    requires NodeAt(n, p).id == NodeAt(n, q).id
    ensures Occ(NodeAt(n, p).id, n) >= 2
    decreases |p|
  {
    var x := NodeAt(n, p).id;
    if p == [] {
      PathOcc(Slots(n)[q[0]], q[1..]);
      OccSplit(x, Slots(n), q[0]);
    } else if q == [] {
      PathOcc(Slots(n)[p[0]], p[1..]);
      OccSplit(x, Slots(n), p[0]);
    } else if p[0] == q[0] {
      assert p[1..] != q[1..] by {
        assert p == [p[0]] + p[1..] && q == [q[0]] + q[1..];
      }
      PathsOcc(Slots(n)[p[0]], p[1..], q[1..]);
      OccSplit(x, Slots(n), p[0]);
    } else {
      PathOcc(Slots(n)[p[0]], p[1..]);
      PathOcc(Slots(n)[q[0]], q[1..]);
      OccTwo(x, Slots(n), if p[0] < q[0] then p[0] else q[0], if p[0] < q[0] then q[0] else p[0]);
    }
  }

  lemma {:induction false} OccTwo(x: Id, s: seq<Node>, i: nat, j: nat)
    requires i < j < |s|
    ensures Occ(x, s[i]) + Occ(x, s[j]) <= OccSeq(x, s)
  {
    OccSplit(x, s, i);
    OccLater(x, s, i + 1, j);
  }

  lemma {:induction false} OccLater(x: Id, s: seq<Node>, i: nat, j: nat)
    requires i <= j < |s|
    ensures Occ(x, s[j]) <= OccSeq(x, s[i..])
  {
    assert s[i..][j - i] == s[j];
    OccMember(x, s[i..], j - i);
  }

  lemma {:induction false} OccMember(x: Id, s: seq<Node>, i: nat)
    requires i < |s|
    ensures Occ(x, s[i]) <= OccSeq(x, s)
  {
    OccSplit(x, s, i);
  }

  // On a tree without repeats an id has one place.
  lemma {:induction false} UniquePath(n: Node, p: Path, q: Path)
    requires UniqueIds(n)
    requires ValidPath(n, p) && ValidPath(n, q)
    requires NodeAt(n, p).id == NodeAt(n, q).id
    ensures p == q
  {
    if p != q {
      PathsOcc(n, p, q);
      assert false;
    }
  }

  lemma {:induction false} UniqueAt(n: Node, p: Path)
    requires UniqueIds(n) && ValidPath(n, p)
    ensures UniqueIds(NodeAt(n, p))
  {
    forall x ensures Occ(x, NodeAt(n, p)) <= 1 {
      OccAt(x, n, p);
      assert Occ(x, n) <= 1;
    }
  }

  // -- Searches --------------------------------------------------------------

  function FirstHolder(x: Id, s: seq<Node>): (r: Option<nat>)
    ensures r.Some? <==> OccSeq(x, s) >= 1
    ensures r.Some? ==> r.value < |s| && Occ(x, s[r.value]) >= 1
    ensures forall j | 0 <= j < |s| && (r.None? || j < r.value) :: Occ(x, s[j]) == 0
  {
    if s == [] then None
    else if Occ(x, s[0]) >= 1 then Some(0)
    else
      match FirstHolder(x, s[1..])
      case None => None
      case Some(i) => Some(i + 1)
  }

  // The first node holding the id: a node before its slots, slots in order.
  function FirstPath(x: Id, n: Node): (r: Option<Path>)
    ensures r.Some? <==> Occ(x, n) >= 1
    ensures r.Some? ==> ValidPath(n, r.value) && NodeAt(n, r.value).id == x
    decreases Size(n)
  {
    SlotSizes(n);
    if n.id == x then Some([]) else
    match FirstHolder(x, Slots(n))
    case None => None
    case Some(i) =>
      var q := FirstPath(x, Slots(n)[i]).value;
      assert ([i] + q)[1..] == q;
      Some([i] + q)
  }

  function FindNode(x: Id, n: Node): Option<Node> {
    match FirstPath(x, n)
    case None => None
    case Some(p) => Some(NodeAt(n, p))
  }

  predicate HasKid(n: Node, x: Id) {
    IsLayout(n) && x in Ids(n.kind.kids)
  }

  // The first layout node whose children list holds the id: a node is asked
  // before its slots.
  function FirstParent(x: Id, n: Node): (r: Option<Path>)
    ensures r.Some? ==> ValidPath(n, r.value) && HasKid(NodeAt(n, r.value), x)
    decreases Size(n), 0
  {
    SlotSizes(n);
    if HasKid(n, x) then Some([]) else
    match FirstParentSeq(x, Slots(n))
    case None => None
    case Some((i, q)) => assert ([i] + q)[1..] == q; Some([i] + q)
  }

  function FirstParentSeq(x: Id, s: seq<Node>): (r: Option<(nat, Path)>)
    ensures r.Some? ==> r.value.0 < |s| && ValidPath(s[r.value.0], r.value.1)
    ensures r.Some? ==> HasKid(NodeAt(s[r.value.0], r.value.1), x)
    decreases SizeSeq(s), 1
  {
    if s == [] then None else
    match FirstParent(x, s[0])
    case Some(p) => Some((0, p))
    case None =>
      match FirstParentSeq(x, s[1..])
      case None => None
      case Some((i, q)) => assert s[i + 1] == s[1..][i]; Some((i + 1, q))
  }

  lemma {:induction false} FirstParentComplete(x: Id, n: Node, p: Path)
    requires ValidPath(n, p) && HasKid(NodeAt(n, p), x)
    ensures FirstParent(x, n).Some?
    decreases |p|, 0
  {
    if p != [] && !HasKid(n, x) {
      FirstParentSeqComplete(x, Slots(n), p[0], p[1..]);
    }
  }

  lemma {:induction false} FirstParentSeqComplete(x: Id, s: seq<Node>, i: nat, p: Path)
    requires i < |s| && ValidPath(s[i], p) && HasKid(NodeAt(s[i], p), x)
    ensures FirstParentSeq(x, s).Some?
    decreases |p|, 1 + i
  {
    if i == 0 {
      FirstParentComplete(x, s[0], p);
    } else {
      FirstParentSeqComplete(x, s[1..], i - 1, p);
    }
  }

  // Whether a node holding `x` lies strictly below the first node holding `above`.
  predicate IsAncestor(above: Id, x: Id, n: Node) {
    match FindNode(above, n)
    case None => false
    case Some(m) => OccSeq(x, Slots(m)) >= 1
  }

  // -- Depth -----------------------------------------------------------------

  function Depth(n: Node): (r: nat)
    ensures r >= 1
    decreases Size(n), 0
  {
    SlotSizes(n);
    1 + DepthSeq(Slots(n))
  }

  function DepthSeq(s: seq<Node>): nat
    decreases SizeSeq(s), 1
  {
    if s == [] then 0 else
    var d, r := Depth(s[0]), DepthSeq(s[1..]);
    if d > r then d else r
  }

  lemma {:induction false} DepthBound(s: seq<Node>, d: nat)
    ensures (forall i | 0 <= i < |s| :: Depth(s[i]) <= d) <==> DepthSeq(s) <= d
  {
    if s != [] {
      DepthBound(s[1..], d);
      assert forall i | 0 < i < |s| :: s[i] == s[1..][i - 1];
      if DepthSeq(s) <= d {
        forall i | 0 <= i < |s| ensures Depth(s[i]) <= d {
          if i > 0 { assert s[i] == s[1..][i - 1]; }
        }
      }
      if forall i | 0 <= i < |s| :: Depth(s[i]) <= d {
        forall i | 0 <= i < |s[1..]| ensures Depth(s[1..][i]) <= d { assert s[1..][i] == s[i + 1]; }
        assert Depth(s[0]) <= d;
      }
    }
  }

  lemma {:induction false} DepthSlot(s: seq<Node>, i: nat)
    requires i < |s|
    ensures Depth(s[i]) <= DepthSeq(s)
  {
    DepthBound(s, DepthSeq(s));
  }

  lemma {:induction false} SizeUpdate(s: seq<Node>, i: nat, c: Node)
    requires i < |s|
    ensures SizeSeq(s[i := c]) == SizeSeq(s) - Size(s[i]) + Size(c)
  {
    if i > 0 {
      assert s[i := c][1..] == s[1..][i - 1 := c];
      SizeUpdate(s[1..], i - 1, c);
    } else {
      assert s[i := c][1..] == s[1..];
    }
  }

  // A smaller, shallower sub-node makes a smaller, shallower tree.
  lemma {:induction false} PutShrinks(n: Node, p: Path, m: Node)
    requires ValidPath(n, p)
    requires Size(m) <= Size(NodeAt(n, p)) && Depth(m) <= Depth(NodeAt(n, p))
    ensures Size(Put(n, p, m)) <= Size(n) && Depth(Put(n, p, m)) <= Depth(n)
    decreases |p|
  {
    if p != [] {
      var i, c := p[0], Put(Slots(n)[p[0]], p[1..], m);
      var r := WithSlot(n, i, c);
      PutShrinks(Slots(n)[i], p[1..], m);
      SlotSizes(n);
      SlotSizes(r);
      SizeUpdate(Slots(n), i, c);
      forall k | 0 <= k < |Slots(r)| ensures Depth(Slots(r)[k]) <= DepthSeq(Slots(n)) {
        DepthSlot(Slots(n), k);
      }
      DepthBound(Slots(r), DepthSeq(Slots(n)));
    }
  }
}
