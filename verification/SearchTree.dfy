/**
  The search tree of 30-2-thread-safe_binary-tree.c as a value: nodes carry the
  identity of the memory cell they stand for. The order is mirrored: a new key
  goes left of the smaller keys.
 */
module SearchTree {

  // A NUL-terminated byte string, without its NUL.
  type Key = seq<nat>

  // strcmp(a, b) < 0
  predicate Less(a: Key, b: Key) {
    b != [] && (a == [] || a[0] < b[0] || (a[0] == b[0] && Less(a[1..], b[1..])))
  }

  // After i equal bytes a ends, or goes on with a lesser byte than b.
  predicate LessFrom(a: Key, b: Key, i: nat) {
    i <= |a| && i < |b| && (forall j | 0 <= j < i :: a[j] == b[j]) && (i == |a| || a[i] < b[i])
  }

  lemma {:induction false} LessFromOn(a: Key, b: Key, i: nat)
    requires LessFrom(a, b, i)
    ensures Less(a, b)
    decreases i
  {
    if i > 0 { LessFromOn(a[1..], b[1..], i - 1); }
  }

  lemma {:induction false} LessGoesOn(a: Key, b: Key) returns (i: nat)
    requires Less(a, b)
    ensures LessFrom(a, b, i)
  {
    i := 0;
    if a != [] && a[0] == b[0] {
      var j := LessGoesOn(a[1..], b[1..]);
      assert forall k | 1 <= k < j + 1 :: a[k] == a[1..][k - 1] && b[k] == b[1..][k - 1];
      i := j + 1;
    }
  }

  // Strings compare where they first differ; the end of one comes before all.
  lemma {:induction false} LessMeans(a: Key, b: Key)
    ensures Less(a, b) <==>
            exists i :: 0 <= i <= |a| && i < |b| && a[..i] == b[..i] && (i == |a| || a[i] < b[i])
  {
    if Less(a, b) {
      var i := LessGoesOn(a, b);
      assert a[..i] == b[..i];
    } else if i :| 0 <= i <= |a| && i < |b| && a[..i] == b[..i] && (i == |a| || a[i] < b[i]) {
      assert forall j | 0 <= j < i :: a[j] == a[..i][j] && b[j] == b[..i][j];
      LessFromOn(a, b, i);
    }
  }

  datatype Tree = Leaf | Node(id: nat, key: Key, value: nat, left: Tree, right: Tree)

  function Insert(t: Tree, id: nat, key: Key, value: nat): Tree {
    match t
    case Leaf => Node(id, key, value, Leaf, Leaf)
    case Node(i, k, v, l, r) =>
      if Less(k, key) then Node(i, k, v, Insert(l, id, key, value), r)
      else Node(i, k, v, l, Insert(r, id, key, value))
  }

  ghost function Ids(t: Tree): set<nat> {
    match t
    case Leaf => {}
    case Node(i, _, _, l, r) => {i} + Ids(l) + Ids(r)
  }

  function Size(t: Tree): nat {
    match t
    case Leaf => 0
    case Node(_, _, _, l, r) => 1 + Size(l) + Size(r)
  }

  // No cell occurs twice.
  ghost predicate Distinct(t: Tree) {
    match t
    case Leaf => true
    case Node(i, _, _, l, r) =>
      i !in Ids(l) && i !in Ids(r) && Ids(l) !! Ids(r) && Distinct(l) && Distinct(r)
  }

  // Cell n lies on the search path of key.
  ghost predicate OnPath(t: Tree, key: Key, n: nat) {
    t.Node? && (t.id == n || OnPath(Toward(t, key), key, n))
  }

  function Toward(t: Tree, key: Key): Tree
    requires t.Node?
  {
    if Less(t.key, key) then t.left else t.right
  }

  // How many links lead from the root to n along the search path of key.
  ghost function Depth(t: Tree, key: Key, n: nat): nat
    requires OnPath(t, key, n)
  {
    if t.id == n then 0 else 1 + Depth(Toward(t, key), key, n)
  }

  lemma {:induction false} PathIds(t: Tree, key: Key, n: nat)
    requires OnPath(t, key, n)
    ensures n in Ids(t) && Depth(t, key, n) < Size(t)
  {
    if t.id != n {
      PathIds(Toward(t, key), key, n);
    }
  }

  lemma {:induction false} InsertIds(t: Tree, id: nat, key: Key, value: nat)
    ensures Ids(Insert(t, id, key, value)) == Ids(t) + {id}
    ensures Size(Insert(t, id, key, value)) == Size(t) + 1
    ensures Distinct(t) && id !in Ids(t) ==> Distinct(Insert(t, id, key, value))
  {
    if t.Node? {
      InsertIds(Toward(t, key), id, key, value);
    }
  }

  // A stale position stays valid: insertion by others keeps every node on the
  // search paths it lay on, at the same depth.
  lemma {:induction false} PathStays(t: Tree, key: Key, n: nat, id: nat, k: Key, value: nat)
    requires OnPath(t, key, n)
    ensures OnPath(Insert(t, id, k, value), key, n)
    ensures Depth(Insert(t, id, k, value), key, n) == Depth(t, key, n)
  {
    if t.id != n {
      PathStays(Toward(t, key), key, n, id, k, value);
    }
  }

  // ------------------------------------------------- what insertion builds

  ghost function Entries(t: Tree): multiset<(Key, nat)> {
    match t
    case Leaf => multiset{}
    case Node(_, k, v, l, r) => multiset{(k, v)} + Entries(l) + Entries(r)
  }

  lemma {:induction false} InsertEntries(t: Tree, id: nat, key: Key, value: nat)
    ensures Entries(Insert(t, id, key, value)) == Entries(t) + multiset{(key, value)}
  {
    if t.Node? {
      InsertEntries(Toward(t, key), id, key, value);
    }
  }

  // How often the entry x is in t.
  function Count(t: Tree, x: (Key, nat)): nat {
    match t
    case Leaf => 0
    case Node(_, k, v, l, r) => (if x == (k, v) then 1 else 0) + Count(l, x) + Count(r, x)
  }

  lemma {:induction false} CountIs(t: Tree, x: (Key, nat))
    ensures Count(t, x) == Entries(t)[x]
  {
    match t
    case Leaf =>
    case Node(_, _, _, l, r) =>
      CountIs(l, x);
      CountIs(r, x);
  }

  lemma {:induction false} InsertCount(t: Tree, id: nat, key: Key, value: nat, x: (Key, nat))
    ensures Count(Insert(t, id, key, value), x) == Count(t, x) + if x == (key, value) then 1 else 0
  {
    InsertEntries(t, id, key, value);
    CountIs(t, x);
    CountIs(Insert(t, id, key, value), x);
  }

  // Every key of t is on the given side of k.
  predicate AllSide(t: Tree, k: Key, leftward: bool) {
    t.Leaf? || (Less(k, t.key) == leftward && AllSide(t.left, k, leftward) && AllSide(t.right, k, leftward))
  }

  // Everything left of a node compares above it, everything right does not.
  predicate Ordered(t: Tree) {
    t.Leaf? || (AllSide(t.left, t.key, true) && AllSide(t.right, t.key, false) && Ordered(t.left) && Ordered(t.right))
  }

  lemma {:induction false} InsertSide(t: Tree, id: nat, key: Key, value: nat, k: Key, leftward: bool)
    requires AllSide(t, k, leftward) && Less(k, key) == leftward
    ensures AllSide(Insert(t, id, key, value), k, leftward)
  {
    if t.Node? {
      InsertSide(Toward(t, key), id, key, value, k, leftward);
    }
  }

  lemma {:induction false} InsertOrdered(t: Tree, id: nat, key: Key, value: nat)
    requires Ordered(t)
    ensures Ordered(Insert(t, id, key, value))
  {
    if t.Node? {
      InsertOrdered(Toward(t, key), id, key, value);
      InsertSide(Toward(t, key), id, key, value, t.key, Less(t.key, key));
    }
  }

  predicate Has(t: Tree, key: Key) {
    t.Node? && (t.key == key || Has(t.left, key) || Has(t.right, key))
  }

  // The search that add itself makes, from the root to a key.
  predicate Lookup(t: Tree, key: Key) {
    t.Node? && (t.key == key || Lookup(Toward(t, key), key))
  }

  lemma {:induction false} HasSide(t: Tree, key: Key, k: Key, leftward: bool)
    requires AllSide(t, k, leftward) && Has(t, key)
    ensures Less(k, key) == leftward
  {
    if t.key != key {
      HasSide(if Has(t.left, key) then t.left else t.right, key, k, leftward);
    }
  }

  // In an ordered tree the search finds a key exactly when it is there.
  lemma {:induction false} LookupFinds(t: Tree, key: Key)
    requires Ordered(t)
    ensures Lookup(t, key) <==> Has(t, key)
  {
    if t.Node? {
      LookupFinds(t.left, key);
      LookupFinds(t.right, key);
      if Has(t.left, key) { HasSide(t.left, key, t.key, true); }
      if Has(t.right, key) { HasSide(t.right, key, t.key, false); }
    }
  }

  // --------------------------------------------------------------- cells

  // A node in memory; -1 is NULL.
  datatype Cell = Cell(key: Key, value: nat, left: int, right: int) {
    function Child(leftward: bool): int {
      if leftward then left else right
    }

    function WithChild(leftward: bool, x: int): Cell {
      if leftward then this.(left := x) else this.(right := x)
    }
  }

  // The cells hanging from x are the tree t.
  ghost predicate Rep(cells: seq<Cell>, x: int, t: Tree)
    decreases t
  {
    match t
    case Leaf => x == -1
    case Node(i, k, v, l, r) =>
      && x == i < |cells| && cells[i].key == k && cells[i].value == v
      && Rep(cells, cells[i].left, l) && Rep(cells, cells[i].right, r)
  }

  lemma {:induction false} RepFrame(cells: seq<Cell>, x: int, t: Tree, n: nat, c: Cell)
    requires n < |cells| && Rep(cells, x, t) && n !in Ids(t)
    ensures Rep(cells[n := c], x, t)
    decreases t
  {
    if t.Node? {
      RepFrame(cells, cells[t.id].left, t.left, n, c);
      RepFrame(cells, cells[t.id].right, t.right, n, c);
    }
  }

  // The node to the side where key belongs is again on the path of key.
  lemma {:induction false} PathStep(cells: seq<Cell>, x: int, t: Tree, key: Key, n: nat)
    requires Rep(cells, x, t) && Distinct(t) && OnPath(t, key, n) && n < |cells|
    requires cells[n].Child(Less(cells[n].key, key)) != -1
    ensures var c := cells[n].Child(Less(cells[n].key, key));
            c >= 0 && OnPath(t, key, c) && Depth(t, key, c) == Depth(t, key, n) + 1
    decreases t
  {
    var sub := Toward(t, key);
    if t.id == n {
      PathIds(sub, key, sub.id);
    } else {
      PathStep(cells, cells[t.id].Child(Less(t.key, key)), sub, key, n);
      PathIds(sub, key, cells[n].Child(Less(cells[n].key, key)));
    }
  }

  // Linking a fresh cell below the last node of a search path is insertion.
  lemma {:induction false} LinkInserts(cells: seq<Cell>, x: int, t: Tree, key: Key, value: nat, n: nat, id: nat)
    requires Rep(cells, x, t) && Distinct(t) && OnPath(t, key, n) && n < |cells| && id < |cells|
    requires id !in Ids(t) && cells[id] == Cell(key, value, -1, -1)
    requires cells[n].Child(Less(cells[n].key, key)) == -1
    ensures Rep(cells[n := cells[n].WithChild(Less(cells[n].key, key), id)], x, Insert(t, id, key, value))
    decreases t
  {
    PathIds(t, key, n);
    var c := cells[n].WithChild(Less(cells[n].key, key), id);
    var sub := Toward(t, key);
    var other := if Less(t.key, key) then t.right else t.left;
    if t.id == n {
      assert sub == Leaf;
    } else {
      PathIds(sub, key, n);
      LinkInserts(cells, cells[t.id].Child(Less(t.key, key)), sub, key, value, n, id);
    }
    RepFrame(cells, cells[t.id].Child(!Less(t.key, key)), other, n, c);
  }
}
