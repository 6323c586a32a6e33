// The theme manifest's token tree: dotted token names built into nested groups, and the
// walk that reads them back.
module ThemeTokens {
  import opened Wrappers
  import Ordinal
  import opened Dotted

  datatype Value = Text(text: string) | Obj(fields: map<string, Value>)

  datatype Token = Token(
    name: string, typ: string, value: string, description: Option<string>, role: Option<string>)

  type Path = seq<string>

  // -- Building --------------------------------------------------------------

  function PutText(fields: map<string, Value>, key: string, text: string): map<string, Value> {
    if text == "" then fields else fields[key := Text(text)]
  }

  function TokenLeaf(t: Token): Value {
    var typed := PutText(map[], "$type", t.typ)["$value" := Text(t.value)];
    var described := if t.description.None? then typed else typed["$description" := Text(t.description.value)];
    var extended :=
      if t.role.None? then described
      else described["$extensions" := Obj(map["fuaran" := Obj(map["role" := Text(t.role.value)])])];
    Obj(extended)
  }

  predicate IsLeaf(v: Value) {
    v.Obj? && "$value" in v.fields
  }

  // The group at a key: an empty one where there is none, or where a leaf stands.
  function GroupIn(tree: map<string, Value>, head: string): map<string, Value> {
    if head in tree && tree[head].Obj? && !IsLeaf(tree[head]) then tree[head].fields else map[]
  }

  // Place a leaf at a path, replacing whatever occupies it; descending past a leaf clears it.
  function InsertAt(tree: map<string, Value>, segments: Path, leaf: Value): map<string, Value>
    decreases |segments|
  {
    if segments == [] then tree else
    var head := segments[0];
    if |segments| == 1 then tree[head := leaf]
    else tree[head := Obj(InsertAt(GroupIn(tree, head), segments[1..], leaf))]
  }

  function Built(tokens: seq<Token>): map<string, Value> {
    if tokens == [] then map[] else
    var n := |tokens| - 1;
    InsertAt(Built(tokens[..n]), Split(tokens[n].name), TokenLeaf(tokens[n]))
  }

  // -- Walking ---------------------------------------------------------------

  predicate IsLeast(k: string, keys: set<string>) {
    k in keys && forall j | j in keys :: j == k || Ordinal.Less(k, j)
  }

  function Least(keys: set<string>): (k: string)
    requires keys != {}
    ensures IsLeast(k, keys)
  {
    LeastExists(keys);
    LeastUnique(keys);
    var k :| k in keys && IsLeast(k, keys);
    k
  }

  lemma {:induction false} LeastUnique(keys: set<string>)
    ensures forall k, l | IsLeast(k, keys) && IsLeast(l, keys) :: k == l
  {
    forall k, l | IsLeast(k, keys) && IsLeast(l, keys) ensures k == l {
      Ordinal.Trichotomy(k, l);
    }
  }

  lemma {:induction false} LeastExists(keys: set<string>)
    requires keys != {}
    ensures exists k :: k in keys && IsLeast(k, keys)
    decreases |keys|
  {
    var x :| x in keys;
    var rest := keys - {x};
    if rest == {} {
      assert keys == {x};
      assert IsLeast(x, keys);
    } else {
      LeastExists(rest);
      var k :| k in rest && IsLeast(k, rest);
      Ordinal.Trichotomy(x, k);
      var least := if Ordinal.Less(x, k) then x else k;
      forall j | j in keys ensures j == least || Ordinal.Less(least, j) {
        if j != x && least == x && j != k { Ordinal.Transitive(x, k, j); }
      }
      assert IsLeast(least, keys);
    }
  }

  function SortedKeys(keys: set<string>): (s: seq<string>)
    ensures forall k :: k in s <==> k in keys
    ensures forall i, j | 0 <= i < j < |s| :: Ordinal.Less(s[i], s[j])
    decreases |keys|
  {
    if keys == {} then [] else
    var k := Least(keys);
    [k] + SortedKeys(keys - {k})
  }

  function TextOf(v: Option<Value>): Option<string> {
    if v.Some? && v.value.Text? then Some(v.value.text) else None
  }

  function Member(v: Option<Value>, key: string): Option<Value> {
    if v.Some? && v.value.Obj? && key in v.value.fields then Some(v.value.fields[key]) else None
  }

  function OrEmpty(s: Option<string>): string {
    match s case None => "" case Some(text) => text
  }

  // The token a leaf holds, under a name.
  function ReadLeaf(name: string, v: Value): Token {
    var o := Some(v);
    Token(
      name, OrEmpty(TextOf(Member(o, "$type"))), OrEmpty(TextOf(Member(o, "$value"))),
      TextOf(Member(o, "$description")), TextOf(Member(Member(Member(o, "$extensions"), "fuaran"), "role")))
  }

  predicate Hidden(key: string) {
    |key| > 0 && key[0] == '$'
  }

  function Under(prefix: string, key: string): string {
    if prefix != "" then prefix + "." + key else key
  }

  function WalkTokens(prefix: string, node: Value): seq<Token>
    decreases node, 1, 0
  {
    if node.Text? then []
    else if IsLeaf(node) then [ReadLeaf(prefix, node)]
    else WalkKeys(prefix, node, SortedKeys(node.fields.Keys))
  }

  function WalkKeys(prefix: string, node: Value, keys: seq<string>): seq<Token>
    requires node.Obj? && forall k | k in keys :: k in node.fields
    decreases node, 0, |keys|
  {
    if keys == [] then []
    else
      (if Hidden(keys[0]) then [] else WalkTokens(Under(prefix, keys[0]), node.fields[keys[0]]))
      + WalkKeys(prefix, node, keys[1..])
  }
}
