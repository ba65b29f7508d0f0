/**
 * The method tree `_createApi` grows on the session from the `core.describe`
 * catalog: each dotted method name (less a leading `core`) becomes a path of
 * camel-cased properties ending in a callable that carries the method's
 * description and params. The walk follows JavaScript's property semantics:
 * whatever truthy value it meets on the way is kept, and the metadata copied
 * onto a callable lives among that callable's other properties.
 */
module Api {
  import opened Wrappers
  import opened Json
  import opened Decimal
  import Naming
  import opened Protocol

  /**
   * A property value of the tree. A callable is the function
   * `caller(fullName)` returns; like any function it holds properties, among
   * them the `description` and `params` copied from the catalog. A plain
   * object is one `createObjects` made. A datum is a value copied from the
   * catalog.
   */
  datatype Node =
    | Callable(fullName: string, props: map<string, Node>)
    | Plain(props: map<string, Node>)
    | Datum(value: Json)

  type Tree = map<string, Node>

  /** `getPath`: the dotted segments, without a leading `core`. */
  function GetPath(fullName: string): (r: seq<string>)
    ensures r == [] <==> fullName == "core"
    ensures Naming.Split(fullName)[0] == "core" ==> r == Naming.Split(fullName)[1..]
    ensures Naming.Split(fullName)[0] != "core" ==> r == Naming.Split(fullName)
  {
    var path := Naming.Split(fullName);
    SplitCore(fullName);
    assert path == ["core"] <==> path[0] == "core" && |path| == 1;
    if path[0] == "core" then path[1..] else path
  }

  lemma SplitCore(fullName: string)
    ensures Naming.Split(fullName) == ["core"] <==> fullName == "core"
  {
    Naming.JoinOfSplit(fullName);
    if fullName == "core" {
      Naming.SplitPlain("core");
    }
  }

  /** The property path a method name is installed under: each segment camel-cased. */
  function CamelPath(segments: seq<string>): (r: seq<string>)
    ensures |r| == |segments|
    ensures forall i :: 0 <= i < |r| ==> r[i] == Naming.SnakeToCamel(segments[i])
  {
    seq(|segments|, i requires 0 <= i < |segments| => Naming.SnakeToCamel(segments[i]))
  }

  /** Camel-casing segment by segment is camel-casing the dotted name: no match straddles a dot. */
  lemma {:induction false} CamelPathJoin(segments: seq<string>)
    ensures Naming.Join(CamelPath(segments)) == Naming.SnakeToCamel(Naming.Join(segments))
    decreases |segments|
  {
    if |segments| > 1 {
      CamelPathJoin(segments[1..]);
      assert CamelPath(segments)[1..] == CamelPath(segments[1..]);
      Naming.CamelDot(segments[0], Naming.Join(segments[1..]));
    }
  }

  // ----- property values -----

  /** `x || {}` keeps `x`: functions and objects are truthy, a datum as JavaScript judges it. */
  predicate Kept(n: Node) {
    !n.Datum? || Truthy(n.value)
  }

  /** The properties of a JSON object copied from the catalog. */
  function FieldProps(fs: seq<Field>): map<string, Node> {
    map k | k in KeySet(fs) :: Datum(Lookup(fs, k).value)
  }

  /** The index properties of a JSON array copied from the catalog. */
  function ItemProps(items: seq<Json>): map<string, Node> {
    NatToStringInjectiveAll();
    map i | 0 <= i < |items| :: NatToString(i) := Datum(items[i])
  }

  /**
   * The properties a value holds when it can take new ones. A JSON object or
   * array copied from the catalog is an object too. A boolean, number or
   * string cannot: giving it a property throws a TypeError, as a class body is
   * strict code.
   */
  function Props(n: Node): Option<map<string, Node>> {
    match n
    case Callable(_, p) => Some(p)
    case Plain(p) => Some(p)
    case Datum(JObj(fs)) => Some(FieldProps(fs))
    case Datum(JArr(items)) => Some(ItemProps(items))
    case Datum(_) => None
  }

  /** A value the walk keeps but cannot go through. */
  predicate Primitive(n: Node) {
    Kept(n) && Props(n).None?
  }

  /** The value with new properties: a callable stays that callable, anything else is an object. */
  function WithProps(n: Node, p: map<string, Node>): (r: Node)
    ensures Props(r) == Some(p)
  {
    if n.Callable? then Callable(n.fullName, p) else Plain(p)
  }

  /** What a value is, apart from its properties. */
  function Shell(n: Node): Node {
    WithProps(n, map[])
  }

  /** Following a property path from the root; none when a step is missing or cannot hold properties. */
  function Locate(t: Tree, q: seq<string>): Option<Node>
    requires |q| >= 1
    decreases |q|
  {
    if q[0] !in t then None
    else if |q| == 1 then Some(t[q[0]])
    else
      match Props(t[q[0]])
      case None => None
      case Some(c) => Locate(c, q[1..])
  }

  lemma EmptyLocate(q: seq<string>)
    requires |q| >= 1
    ensures Locate(map[], q) == None
  {
  }

  /** Locating below the first step is locating in that step's properties. */
  lemma LocateStep(t: Tree, p: seq<string>, k: nat)
    requires 1 < k <= |p| && p[0] in t && Props(t[p[0]]).Some?
    ensures Locate(t, p[..k]) == Locate(Props(t[p[0]]).value, p[1..][..k - 1])
  {
    assert p[..k][0] == p[0];
    assert p[..k][1..] == p[1..][..k - 1];
  }

  // ----- installing one callable -----

  /** The result of a walk: the new tree, and whether it completed without throwing. */
  datatype Step = Step(tree: Tree, ok: bool)

  /**
   * `createObjects(p[..|p| - 1])` then `object[p[|p| - 1]] = leaf`. Each step
   * keeps the property when it holds a truthy value and otherwise puts an
   * empty object there (`parentObj[name] = parentObj[name] || {}`); a kept
   * primitive cannot take the next property, and the walk throws there.
   */
  function InstallAt(t: Tree, p: seq<string>, leaf: Node): (s: Step)
    requires |p| >= 1
    ensures p[0] in s.tree
    ensures s.tree - {p[0]} == t - {p[0]}
    decreases |p|
  {
    if |p| == 1 then Step(t[p[0] := leaf], true)
    else
      var next := if p[0] in t && Kept(t[p[0]]) then t[p[0]] else Plain(map[]);
      match Props(next)
      case None => Step(t, false)
      case Some(q) =>
        var s := InstallAt(q, p[1..], leaf);
        Step(t[p[0] := WithProps(next, s.tree)], s.ok)
  }

  predicate IsPrefix(p: seq<string>, q: seq<string>) {
    |p| <= |q| && q[..|p|] == p
  }

  predicate Incomparable(p: seq<string>, q: seq<string>) {
    !IsPrefix(p, q) && !IsPrefix(q, p)
  }

  /** On the way to `p` lies a primitive the walk would have to give a property. */
  predicate Blocked(t: Tree, p: seq<string>) {
    exists k :: 1 <= k < |p| && Locate(t, p[..k]).Some? && Primitive(Locate(t, p[..k]).value)
  }

  /** An empty tree blocks no walk. */
  lemma FreshTreeClear(p: seq<string>)
    ensures !Blocked(map[], p)
  {
    forall k | 1 <= k < |p| ensures Locate(map[], p[..k]).None? {
      EmptyLocate(p[..k]);
    }
  }

  /** The walk throws exactly when a primitive lies on the way. */
  lemma {:induction false} InstallOk(t: Tree, p: seq<string>, leaf: Node)
    requires |p| >= 1
    ensures InstallAt(t, p, leaf).ok <==> !Blocked(t, p)
    decreases |p|
  {
    if |p| > 1 {
      assert p[..1] == [p[0]];
      var kept := p[0] in t && Kept(t[p[0]]);
      var next := if kept then t[p[0]] else Plain(map[]);
      if Props(next).None? {
        assert Locate(t, p[..1]) == Some(next);
      } else if kept {
        var q := Props(next).value;
        InstallOk(q, p[1..], leaf);
        if Blocked(t, p) {
          var k :| 1 <= k < |p| && Locate(t, p[..k]).Some? && Primitive(Locate(t, p[..k]).value);
          assert k != 1;
          LocateStep(t, p, k);
          assert Locate(q, p[1..][..k - 1]).Some?;
        }
        if Blocked(q, p[1..]) {
          var j :| 1 <= j < |p[1..]| && Locate(q, p[1..][..j]).Some? && Primitive(Locate(q, p[1..][..j]).value);
          LocateStep(t, p, j + 1);
        }
      } else {
        InstallOk(map[], p[1..], leaf);
        FreshTreeClear(p[1..]);
        forall k | 1 <= k < |p| ensures !(Locate(t, p[..k]).Some? && Primitive(Locate(t, p[..k]).value)) {
          assert p[..k][0] == p[0];
        }
      }
    }
  }

  /** The installed callable is found where it was installed. */
  lemma {:induction false} InstallFinds(t: Tree, p: seq<string>, leaf: Node)
    requires |p| >= 1 && InstallAt(t, p, leaf).ok
    ensures Locate(InstallAt(t, p, leaf).tree, p) == Some(leaf)
    decreases |p|
  {
    if |p| > 1 {
      var next := if p[0] in t && Kept(t[p[0]]) then t[p[0]] else Plain(map[]);
      InstallFinds(Props(next).value, p[1..], leaf);
    }
  }

  lemma InstallResult(t: Tree, p: seq<string>, leaf: Node)
    requires |p| >= 1
    ensures InstallAt(t, p, leaf).ok <==> !Blocked(t, p)
    ensures InstallAt(t, p, leaf).ok ==> Locate(InstallAt(t, p, leaf).tree, p) == Some(leaf)
  {
    InstallOk(t, p, leaf);
    if InstallAt(t, p, leaf).ok {
      InstallFinds(t, p, leaf);
    }
  }

  /**
   * Every property on the way is there afterwards and can hold properties. One
   * the walk kept is the same callable or object as before, with all its other
   * properties; one it created is an object holding just the next step.
   */
  lemma {:induction false} InstallKeepsPrefix(t: Tree, p: seq<string>, leaf: Node, k: nat)
    requires 1 <= k < |p| && InstallAt(t, p, leaf).ok
    ensures var after := Locate(InstallAt(t, p, leaf).tree, p[..k]);
            after.Some? && Props(after.value).Some? && p[k] in Props(after.value).value
    ensures var before := Locate(t, p[..k]);
            var after := Locate(InstallAt(t, p, leaf).tree, p[..k]).value;
            before.Some? && Kept(before.value) ==>
              && Shell(after) == Shell(before.value)
              && Props(before.value).Some?
              && Props(after).value - {p[k]} == Props(before.value).value - {p[k]}
    ensures var before := Locate(t, p[..k]);
            var after := Locate(InstallAt(t, p, leaf).tree, p[..k]).value;
            !(before.Some? && Kept(before.value)) ==> after.Plain? && after.props.Keys == {p[k]}
    decreases |p|
  {
    var kept := p[0] in t && Kept(t[p[0]]);
    var next := if kept then t[p[0]] else Plain(map[]);
    var q := Props(next).value;
    var s := InstallAt(q, p[1..], leaf);
    var r := InstallAt(t, p, leaf).tree;
    assert r == t[p[0] := WithProps(next, s.tree)];
    if k == 1 {
      assert p[..1] == [p[0]];
      if !kept {
        assert s.tree - {p[1]} == map[];
        assert s.tree.Keys == {p[1]};
      }
    } else {
      InstallKeepsPrefix(q, p[1..], leaf, k - 1);
      LocateStep(r, p, k);
      if kept {
        LocateStep(t, p, k);
      } else {
        assert p[..k][0] == p[0];
        assert Locate(t, p[..k]) == None;
        EmptyLocate(p[1..][..k - 1]);
      }
    }
  }

  /** Paths off the installed one are left alone, whether or not the walk completed. */
  lemma {:induction false} InstallElsewhere(t: Tree, p: seq<string>, leaf: Node, q: seq<string>)
    requires |p| >= 1 && |q| >= 1 && Incomparable(p, q)
    ensures Locate(InstallAt(t, p, leaf).tree, q) == Locate(t, q)
    decreases |p|
  {
    var r := InstallAt(t, p, leaf).tree;
    if p[0] != q[0] {
      assert q[0] in r - {p[0]} <==> q[0] in t - {p[0]};
      if q[0] in t {
        assert (r - {p[0]})[q[0]] == (t - {p[0]})[q[0]];
      }
    } else {
      // neither path has length one here, or it would be a prefix of the other
      assert |p| > 1 && |q| > 1;
      var kept := p[0] in t && Kept(t[p[0]]);
      var next := if kept then t[p[0]] else Plain(map[]);
      if Props(next).Some? {
        InstallElsewhere(Props(next).value, p[1..], leaf, q[1..]);
        if !kept {
          EmptyLocate(q[1..]);
        }
      }
    }
  }

  /** Below the installed property only the leaf's own properties are found: whatever was there before is gone. */
  lemma {:induction false} InstallReplacesBelow(t: Tree, p: seq<string>, leaf: Node, q: seq<string>)
    requires |p| >= 1 && |q| > |p| && q[..|p|] == p && InstallAt(t, p, leaf).ok
    ensures Locate(InstallAt(t, p, leaf).tree, q) == if Props(leaf).Some? then Locate(Props(leaf).value, q[|p|..]) else None
    decreases |p|
  {
    if |p| == 1 {
      assert q[0] == p[0];
    } else {
      var next := if p[0] in t && Kept(t[p[0]]) then t[p[0]] else Plain(map[]);
      var c := Props(next).value;
      var s := InstallAt(c, p[1..], leaf);
      assert q[0] == p[0];
      assert InstallAt(t, p, leaf).tree == t[p[0] := WithProps(next, s.tree)];
      assert Locate(InstallAt(t, p, leaf).tree, q) == Locate(s.tree, q[1..]);
      assert q[1..][..|p| - 1] == p[1..];
      assert q[1..][|p| - 1..] == q[|p|..];
      InstallReplacesBelow(c, p[1..], leaf, q[1..]);
    }
  }

  /** Installing off a path keeps that path clear of primitives. */
  lemma InstallKeepsClear(t: Tree, p: seq<string>, leaf: Node, q: seq<string>)
    requires |p| >= 1 && |q| >= 1 && Incomparable(p, q)
    requires InstallAt(t, p, leaf).ok && !Blocked(t, q)
    ensures !Blocked(InstallAt(t, p, leaf).tree, q)
  {
    var r := InstallAt(t, p, leaf).tree;
    forall k | 1 <= k < |q| ensures !(Locate(r, q[..k]).Some? && Primitive(Locate(r, q[..k]).value)) {
      if IsPrefix(q[..k], p) {
        assert k < |p|;
        InstallKeepsPrefix(t, p, leaf, k);
      } else {
        assert |p| <= k ==> q[..k][..|p|] == q[..|p|];
        InstallElsewhere(t, p, leaf, q[..k]);
      }
    }
  }

  // ----- the catalog -----

  /** One catalog entry: a full method name and the value `core.describe` gave for it. */
  datatype Entry = Entry(name: string, spec: Json)

  /** Array indices run below 2^32 - 1. */
  const ArrayIndexLimit: nat := 4294967295

  /** An array index as a property key: `String(i)` for an `i` below 2^32 - 1. */
  predicate IsIndexKey(k: string) {
    Canonical(k) && DigitsValue(k) < ArrayIndexLimit
  }

  predicate Distinct(s: seq<string>) {
    forall i, j :: 0 <= i < j < |s| ==> s[i] != s[j]
  }

  /** Every element is a key of the object. */
  predicate KeysOf(fs: seq<Field>, s: seq<string>) {
    forall i :: 0 <= i < |s| ==> HasKey(fs, s[i])
  }

  /** An object's keys in the order they were created: each where it first occurs. */
  function OwnKeys(fs: seq<Field>): (r: seq<string>)
    ensures forall k :: k in r <==> HasKey(fs, k)
    ensures KeysOf(fs, r)
    ensures Distinct(r)
    decreases |fs|
  {
    if fs == [] then []
    else
      var init := fs[..|fs| - 1];
      var last := fs[|fs| - 1].key;
      var r := OwnKeys(init);
      assert forall i :: 0 <= i < |init| ==> init[i] == fs[i];
      assert forall k :: HasKey(fs, k) <==> HasKey(init, k) || k == last;
      if HasKey(init, last) then r else r + [last]
  }

  /** Where key `k` first occurs among an object's fields; past the end when it does not. */
  function FirstAt(fs: seq<Field>, k: string): (i: nat)
    ensures i <= |fs|
    decreases |fs|
  {
    if fs == [] then 0
    else if fs[0].key == k then 0
    else 1 + FirstAt(fs[1..], k)
  }

  /** The first occurrence holds `k` and no earlier field does; there is none exactly when `k` is no key. */
  lemma {:induction false} FirstAtSpec(fs: seq<Field>, k: string)
    ensures FirstAt(fs, k) < |fs| <==> HasKey(fs, k)
    ensures FirstAt(fs, k) < |fs| ==> fs[FirstAt(fs, k)].key == k
    ensures forall j :: 0 <= j < FirstAt(fs, k) ==> fs[j].key != k
    decreases |fs|
  {
    if fs != [] && fs[0].key != k {
      FirstAtSpec(fs[1..], k);
      assert forall j :: 1 <= j < |fs| ==> fs[j] == fs[1..][j - 1];
    }
  }

  /** Every element first occurs after position `v`. */
  predicate Later(fs: seq<Field>, v: nat, s: seq<string>) {
    forall i :: 0 <= i < |s| ==> FirstAt(fs, s[i]) > v
  }

  /** The keys stand in the order of their first occurrence among the fields: each before all that follow it. */
  predicate CreationOrdered(fs: seq<Field>, s: seq<string>)
    decreases |s|
  {
    s == [] || (Later(fs, FirstAt(fs, s[0]), s[1..]) && CreationOrdered(fs, s[1..]))
  }

  lemma {:induction false} OrderedPairs(fs: seq<Field>, s: seq<string>)
    requires CreationOrdered(fs, s)
    ensures forall i, j :: 0 <= i < j < |s| ==> FirstAt(fs, s[i]) < FirstAt(fs, s[j])
    decreases |s|
  {
    if s != [] {
      var tail := s[1..];
      OrderedPairs(fs, tail);
      forall i, j | 0 <= i < j < |s| ensures FirstAt(fs, s[i]) < FirstAt(fs, s[j]) {
        assert s[j] == tail[j - 1];
        if i > 0 {
          assert s[i] == tail[i - 1];
        }
      }
    }
  }

  lemma {:induction false} PairsOrdered(fs: seq<Field>, s: seq<string>)
    requires forall i, j :: 0 <= i < j < |s| ==> FirstAt(fs, s[i]) < FirstAt(fs, s[j])
    ensures CreationOrdered(fs, s)
    decreases |s|
  {
    if s != [] {
      var tail := s[1..];
      assert forall i :: 0 <= i < |tail| ==> tail[i] == s[i + 1];
      PairsOrdered(fs, tail);
    }
  }

  /** The first occurrence is the position holding `k` with no `k` before it. */
  lemma FirstAtUnique(fs: seq<Field>, k: string, i: nat)
    requires i < |fs| && fs[i].key == k
    requires forall j :: 0 <= j < i ==> fs[j].key != k
    ensures FirstAt(fs, k) == i
  {
    FirstAtSpec(fs, k);
  }

  /** A key of the fields before the last one first occurs where it first occurred there. */
  lemma FirstAtInit(fs: seq<Field>, k: string)
    requires fs != [] && HasKey(fs[..|fs| - 1], k)
    ensures FirstAt(fs, k) == FirstAt(fs[..|fs| - 1], k)
  {
    var init := fs[..|fs| - 1];
    FirstAtSpec(init, k);
    var b := FirstAt(init, k);
    assert forall j :: 0 <= j <= b ==> fs[j] == init[j];
    FirstAtUnique(fs, k, b);
  }

  /** Keys are listed in the order of their first occurrence. */
  lemma {:induction false} OwnKeysOrder(fs: seq<Field>)
    ensures forall i, j :: 0 <= i < j < |OwnKeys(fs)| ==> FirstAt(fs, OwnKeys(fs)[i]) < FirstAt(fs, OwnKeys(fs)[j])
    decreases |fs|
  {
    if fs != [] {
      var init := fs[..|fs| - 1];
      var last := fs[|fs| - 1].key;
      OwnKeysOrder(init);
      var r := OwnKeys(init);
      forall i | 0 <= i < |r| ensures FirstAt(fs, r[i]) == FirstAt(init, r[i]) < |init| {
        FirstAtInit(fs, r[i]);
        FirstAtSpec(init, r[i]);
      }
      if !HasKey(init, last) {
        assert forall j :: 0 <= j < |init| ==> fs[j] == init[j];
        FirstAtUnique(fs, last, |fs| - 1);
        var r' := r + [last];
        assert OwnKeys(fs) == r';
        forall i, j | 0 <= i < j < |r'| ensures FirstAt(fs, r'[i]) < FirstAt(fs, r'[j]) {
          assert r'[i] == r[i];
          if j < |r| {
            assert r'[j] == r[j];
          }
        }
      }
    }
  }

  /** Every element is an array index. */
  predicate AllIndices(s: seq<string>) {
    forall i :: 0 <= i < |s| ==> IsIndexKey(s[i])
  }

  /** Every element spells a number above `v`. */
  predicate Above(v: nat, s: seq<string>) {
    forall i :: 0 <= i < |s| ==> Canonical(s[i]) && DigitsValue(s[i]) > v
  }

  /** Numeric keys in strictly ascending order: each below all that follow it. */
  predicate Ascending(s: seq<string>)
    decreases |s|
  {
    s == [] || (Canonical(s[0]) && Above(DigitsValue(s[0]), s[1..]) && Ascending(s[1..]))
  }

  lemma {:induction false} AscendingPairs(s: seq<string>)
    requires Ascending(s)
    ensures forall i, j :: 0 <= i < j < |s| ==> Canonical(s[i]) && Canonical(s[j]) && DigitsValue(s[i]) < DigitsValue(s[j])
    decreases |s|
  {
    if s != [] {
      var tail := s[1..];
      AscendingPairs(tail);
      forall i, j | 0 <= i < j < |s| ensures Canonical(s[i]) && Canonical(s[j]) && DigitsValue(s[i]) < DigitsValue(s[j]) {
        assert s[j] == tail[j - 1];
        if i > 0 {
          assert s[i] == tail[i - 1];
        }
      }
    }
  }

  /** Two array-index keys spelling the same number are the same key. */
  lemma SameIndex(a: string, b: string)
    requires Canonical(a) && Canonical(b) && DigitsValue(a) == DigitsValue(b)
    ensures a == b
  {
    CanonicalRoundTrip(a);
    CanonicalRoundTrip(b);
  }

  /** Inserting an index key into ascending index keys, before the first larger one. */
  function InsertIndex(k: string, s: seq<string>): (r: seq<string>)
    requires IsIndexKey(k) && AllIndices(s)
    ensures AllIndices(r)
    ensures forall x :: x in r <==> x == k || x in s
    decreases |s|
  {
    if s == [] then [k]
    else if DigitsValue(k) < DigitsValue(s[0]) then [k] + s
    else [s[0]] + InsertIndex(k, s[1..])
  }

  lemma {:induction false} InsertAbove(v: nat, k: string, s: seq<string>)
    requires IsIndexKey(k) && AllIndices(s) && DigitsValue(k) > v && Above(v, s)
    ensures Above(v, InsertIndex(k, s))
    decreases |s|
  {
    if s != [] && DigitsValue(k) >= DigitsValue(s[0]) {
      InsertAbove(v, k, s[1..]);
      var rt := InsertIndex(k, s[1..]);
      var r := [s[0]] + rt;
      assert forall i :: 0 < i < |r| ==> r[i] == rt[i - 1];
    }
  }

  lemma {:induction false} InsertIndexAscending(k: string, s: seq<string>)
    requires IsIndexKey(k) && AllIndices(s) && Ascending(s) && k !in s
    ensures Ascending(InsertIndex(k, s))
    decreases |s|
  {
    if s != [] {
      var tail := s[1..];
      if DigitsValue(k) < DigitsValue(s[0]) {
        var r := [k] + s;
        assert r[1..] == s;
        forall i | 0 <= i < |s| ensures Canonical(s[i]) && DigitsValue(s[i]) > DigitsValue(k) {
          if i > 0 {
            assert s[i] == tail[i - 1];
          }
        }
      } else {
        if DigitsValue(k) == DigitsValue(s[0]) {
          SameIndex(k, s[0]);
        }
        InsertIndexAscending(k, tail);
        InsertAbove(DigitsValue(s[0]), k, tail);
        var r := [s[0]] + InsertIndex(k, tail);
        assert r[1..] == InsertIndex(k, tail);
      }
    }
  }

  /** The array-index keys of `s`, in ascending numeric order. */
  function SortIndices(s: seq<string>): (r: seq<string>)
    ensures AllIndices(r)
    ensures forall x :: x in r <==> x in s && IsIndexKey(x)
    decreases |s|
  {
    if s == [] then []
    else
      var r := SortIndices(s[1..]);
      if IsIndexKey(s[0]) then InsertIndex(s[0], r) else r
  }

  lemma {:induction false} SortIndicesAscending(s: seq<string>)
    requires Distinct(s)
    ensures Ascending(SortIndices(s))
    decreases |s|
  {
    if s != [] {
      var tail := s[1..];
      assert Distinct(tail) by {
        assert forall i :: 0 <= i < |tail| ==> tail[i] == s[i + 1];
      }
      SortIndicesAscending(tail);
      if IsIndexKey(s[0]) {
        assert s[0] !in tail;
        InsertIndexAscending(s[0], SortIndices(tail));
      }
    }
  }

  predicate NotIndexKey(k: string) {
    !IsIndexKey(k)
  }

  /** The elements of `s` that `keep` accepts, in order. */
  function Filter(s: seq<string>, keep: string -> bool): (r: seq<string>)
    ensures forall k :: k in r <==> k in s && keep(k)
    ensures forall i :: 0 <= i < |r| ==> keep(r[i])
    decreases |s|
  {
    if s == [] then []
    else (if keep(s[0]) then [s[0]] else []) + Filter(s[1..], keep)
  }

  /** Filtering keeps the elements distinct. */
  lemma {:induction false} FilterDistinct(s: seq<string>, keep: string -> bool)
    requires Distinct(s)
    ensures Distinct(Filter(s, keep))
    decreases |s|
  {
    if s != [] {
      var tail := s[1..];
      var rt := Filter(tail, keep);
      assert Distinct(tail) by {
        assert forall i :: 0 <= i < |tail| ==> tail[i] == s[i + 1];
      }
      FilterDistinct(tail, keep);
      assert s[0] !in tail;
      if keep(s[0]) {
        var r := [s[0]] + rt;
        forall i, j | 0 <= i < j < |r| ensures r[i] != r[j] {
          assert r[j] == rt[j - 1] && rt[j - 1] in tail;
          if i > 0 {
            assert r[i] == rt[i - 1];
          }
        }
      }
    }
  }

  lemma {:induction false} FilterLater(fs: seq<Field>, v: nat, s: seq<string>, keep: string -> bool)
    requires Later(fs, v, s)
    ensures Later(fs, v, Filter(s, keep))
    decreases |s|
  {
    if s != [] {
      FilterLater(fs, v, s[1..], keep);
      var rt := Filter(s[1..], keep);
      if keep(s[0]) {
        var r := [s[0]] + rt;
        assert forall i :: 0 < i < |r| ==> r[i] == rt[i - 1];
      }
    }
  }

  /** Filtering keeps creation order. */
  lemma {:induction false} FilterOrder(fs: seq<Field>, s: seq<string>, keep: string -> bool)
    requires CreationOrdered(fs, s)
    ensures CreationOrdered(fs, Filter(s, keep))
    decreases |s|
  {
    if s != [] {
      var tail := s[1..];
      var rt := Filter(tail, keep);
      FilterOrder(fs, tail, keep);
      FilterLater(fs, FirstAt(fs, s[0]), tail, keep);
      if keep(s[0]) {
        var r := [s[0]] + rt;
        assert Filter(s, keep) == r;
        assert r[0] == s[0] && r[1..] == rt;
      } else {
        assert Filter(s, keep) == rt;
      }
    }
  }

  /**
   * `Object.keys` of an object, as ECMAScript's OrdinaryOwnPropertyKeys
   * orders them: the array indices first in ascending numeric order, then the
   * other keys in creation order.
   */
  function ObjectKeys(fs: seq<Field>): (r: seq<string>)
    ensures forall k :: k in r <==> HasKey(fs, k)
  {
    SortIndices(OwnKeys(fs)) + Filter(OwnKeys(fs), NotIndexKey)
  }

  /** The array indices first, ascending; the other keys after them, in creation order. */
  predicate KeyOrder(fs: seq<Field>, r: seq<string>) {
    && (forall i, j :: 0 <= i < j < |r| && IsIndexKey(r[j]) ==> IsIndexKey(r[i]) && DigitsValue(r[i]) < DigitsValue(r[j]))
    && (forall i, j :: 0 <= i < j < |r| && !IsIndexKey(r[i]) ==> !IsIndexKey(r[j]) && FirstAt(fs, r[i]) < FirstAt(fs, r[j]))
  }

  /** Ascending indices followed by distinct non-indices in creation order are distinct and in `KeyOrder`. */
  lemma ConcatKeys(fs: seq<Field>, a: seq<string>, b: seq<string>)
    requires AllIndices(a)
    requires forall i, j :: 0 <= i < j < |a| ==> Canonical(a[i]) && Canonical(a[j]) && DigitsValue(a[i]) < DigitsValue(a[j])
    requires forall i :: 0 <= i < |b| ==> !IsIndexKey(b[i])
    requires Distinct(b)
    requires forall i, j :: 0 <= i < j < |b| ==> FirstAt(fs, b[i]) < FirstAt(fs, b[j])
    ensures Distinct(a + b) && KeyOrder(fs, a + b)
  {
    var r := a + b;
    forall i | 0 <= i < |r|
      ensures i < |a| ==> r[i] == a[i] && IsIndexKey(r[i])
      ensures |a| <= i ==> r[i] == b[i - |a|] && !IsIndexKey(r[i])
    {
    }
    forall i, j | 0 <= i < j < |r| ensures r[i] != r[j] {
      if j < |a| {
        assert DigitsValue(a[i]) < DigitsValue(a[j]);
      } else if |a| <= i {
        assert b[i - |a|] != b[j - |a|];
      }
    }
    forall i, j | 0 <= i < j < |r| && IsIndexKey(r[j])
      ensures IsIndexKey(r[i]) && DigitsValue(r[i]) < DigitsValue(r[j])
    {
      assert j < |a|;
    }
    forall i, j | 0 <= i < j < |r| && !IsIndexKey(r[i])
      ensures !IsIndexKey(r[j]) && FirstAt(fs, r[i]) < FirstAt(fs, r[j])
    {
      assert |a| <= i;
      assert FirstAt(fs, b[i - |a|]) < FirstAt(fs, b[j - |a|]);
    }
  }

  /** Each key once, the array indices first and ascending, the rest in creation order. */
  lemma ObjectKeysOrder(fs: seq<Field>)
    ensures Distinct(ObjectKeys(fs))
    ensures KeysOf(fs, ObjectKeys(fs))
    ensures forall i, j :: 0 <= i < j < |ObjectKeys(fs)| && IsIndexKey(ObjectKeys(fs)[j]) ==>
              IsIndexKey(ObjectKeys(fs)[i]) && DigitsValue(ObjectKeys(fs)[i]) < DigitsValue(ObjectKeys(fs)[j])
    ensures forall i, j :: 0 <= i < j < |ObjectKeys(fs)| && !IsIndexKey(ObjectKeys(fs)[i]) ==>
              !IsIndexKey(ObjectKeys(fs)[j]) && FirstAt(fs, ObjectKeys(fs)[i]) < FirstAt(fs, ObjectKeys(fs)[j])
  {
    var own := OwnKeys(fs);
    var a := SortIndices(own);
    var b := Filter(own, NotIndexKey);
    SortIndicesAscending(own);
    AscendingPairs(a);
    OwnKeysOrder(fs);
    FilterDistinct(own, NotIndexKey);
    PairsOrdered(fs, own);
    FilterOrder(fs, own, NotIndexKey);
    OrderedPairs(fs, b);
    ConcatKeys(fs, a, b);
    var r := ObjectKeys(fs);
    assert r == a + b;
    forall i | 0 <= i < |r| ensures HasKey(fs, r[i]) {
      assert r[i] in r;
    }
  }

  /**
   * `Object.keys(methods)` paired with `methods[key]`; none when `methods` is
   * null (`Object.keys` throws). An array or a string lists its indices, and
   * a number or a boolean has no keys.
   */
  function CatalogEntries(methods: Json): (r: Option<seq<Entry>>)
    ensures r.None? <==> methods.JNull?
    ensures methods.JObj? ==>
              && |r.value| == |ObjectKeys(methods.fields)|
              && forall i :: 0 <= i < |r.value| ==>
                   r.value[i].name == ObjectKeys(methods.fields)[i] && Lookup(methods.fields, r.value[i].name) == Some(r.value[i].spec)
    ensures methods.JArr? ==> |r.value| == |methods.items|
                              && forall i :: 0 <= i < |methods.items| ==> r.value[i] == Entry(NatToString(i), methods.items[i])
    ensures methods.JStr? ==> |r.value| == |methods.s|
                              && forall i :: 0 <= i < |methods.s| ==> r.value[i] == Entry(NatToString(i), JStr([methods.s[i]]))
    ensures methods.JNum? || methods.JBool? ==> r == Some([])
  {
    match methods
    case JNull => None
    case JObj(fs) =>
      var keys := ObjectKeys(fs);
      Some(seq(|keys|, i requires 0 <= i < |keys| => Entry(keys[i], Lookup(fs, keys[i]).value)))
    case JArr(items) => Some(seq(|items|, i requires 0 <= i < |items| => Entry(NatToString(i), items[i])))
    case JStr(s) => Some(seq(|s|, i requires 0 <= i < |s| => Entry(NatToString(i), JStr([s[i]]))))
    case _ => Some([])
  }

  /**
   * An object catalog yields every method once, with the value stored under
   * its name; index-like names come first in ascending order, the others in
   * the order the server listed them.
   */
  lemma CatalogOrder(fs: seq<Field>)
    ensures var r := CatalogEntries(JObj(fs)).value;
            forall i :: 0 <= i < |r| ==> Lookup(fs, r[i].name) == Some(r[i].spec)
    ensures var r := CatalogEntries(JObj(fs)).value;
            forall k :: HasKey(fs, k) <==> exists i :: 0 <= i < |r| && r[i].name == k
    ensures var r := CatalogEntries(JObj(fs)).value;
            forall i, j :: 0 <= i < j < |r| ==> r[i].name != r[j].name
    ensures var r := CatalogEntries(JObj(fs)).value;
            forall i, j :: 0 <= i < j < |r| && IsIndexKey(r[j].name) ==>
              IsIndexKey(r[i].name) && DigitsValue(r[i].name) < DigitsValue(r[j].name)
    ensures var r := CatalogEntries(JObj(fs)).value;
            forall i, j :: 0 <= i < j < |r| && !IsIndexKey(r[i].name) ==>
              !IsIndexKey(r[j].name) && FirstAt(fs, r[i].name) < FirstAt(fs, r[j].name)
  {
    var r := CatalogEntries(JObj(fs)).value;
    var keys := ObjectKeys(fs);
    ObjectKeysOrder(fs);
    forall k | HasKey(fs, k) ensures exists i :: 0 <= i < |r| && r[i].name == k {
      var i :| 0 <= i < |keys| && keys[i] == k;
      assert r[i].name == k;
    }
  }

  /** The callable `createMethod` installs for an entry: `caller(name)` with the entry's metadata. */
  function LeafFor(e: Entry): Node {
    Callable(e.name, Meta(e.spec))
  }

  /** `spec.description` and `spec.params` as properties; an undefined one is left off, which walks the same. */
  function Meta(spec: Json): map<string, Node> {
    var d := Member(spec, "description");
    var p := Member(spec, "params");
    (if d.Some? then map["description" := Datum(d.value)] else map[])
    + (if p.Some? then map["params" := Datum(p.value)] else map[])
  }

  /**
   * `createMethod(name)`. The name `core` leaves no path, and camel-casing the
   * missing last segment throws before anything changes. A primitive on the
   * way throws during the walk. A null entry throws after the bare callable
   * is installed, when its description is read.
   */
  function CreateMethod(t: Tree, e: Entry): (s: Step)
    ensures s.ok <==> e.name != "core" && !e.spec.JNull? && !Blocked(t, CamelPath(GetPath(e.name)))
    ensures e.name == "core" ==> s.tree == t
    ensures t.Keys <= s.tree.Keys
    ensures e.name != "core" && !Blocked(t, CamelPath(GetPath(e.name))) ==>
              Locate(s.tree, CamelPath(GetPath(e.name))) == Some(if e.spec.JNull? then Callable(e.name, map[]) else LeafFor(e))
  {
    var path := GetPath(e.name);
    if path == [] then Step(t, false)
    else
      var leaf := if e.spec.JNull? then Callable(e.name, map[]) else LeafFor(e);
      var s := InstallAt(t, CamelPath(path), leaf);
      InstallResult(t, CamelPath(path), leaf);
      InstallKeys(t, CamelPath(path), leaf);
      Step(s.tree, s.ok && !e.spec.JNull?)
  }

  /** `Object.keys(methods).forEach(createMethod)` over the first entries, stopping at the first throw. */
  function Materialize(t: Tree, es: seq<Entry>): (s: Step)
    ensures t.Keys <= s.tree.Keys
    decreases |es|
  {
    if es == [] then Step(t, true)
    else
      var s := Materialize(t, es[..|es| - 1]);
      if s.ok then
        CreateMethod(s.tree, es[|es| - 1])
      else s
  }

  lemma InstallKeys(t: Tree, p: seq<string>, leaf: Node)
    requires |p| >= 1
    ensures t.Keys <= InstallAt(t, p, leaf).tree.Keys
  {
    var r := InstallAt(t, p, leaf).tree;
    forall k | k in t ensures k in r {
      if k != p[0] {
        assert k in t - {p[0]};
      }
    }
  }

  /** An entry is installable when it leaves a path and its spec can be read. */
  predicate Installable(e: Entry) {
    e.name != "core" && !e.spec.JNull?
  }

  /** Entries whose property paths are pairwise incomparable do not disturb each other. */
  predicate Disjoint(es: seq<Entry>)
    requires forall i :: 0 <= i < |es| ==> Installable(es[i])
  {
    forall i, j :: 0 <= i < j < |es| ==> Incomparable(CamelPath(GetPath(es[i].name)), CamelPath(GetPath(es[j].name)))
  }

  /** The walk over separate installable entries completes and leaves clear every path it did not take. */
  lemma {:induction false} MaterializeClear(t: Tree, es: seq<Entry>, q: seq<string>)
    requires forall i :: 0 <= i < |es| ==> Installable(es[i])
    requires Disjoint(es)
    requires forall i :: 0 <= i < |es| ==> !Blocked(t, CamelPath(GetPath(es[i].name)))
    requires |q| >= 1 && !Blocked(t, q)
    requires forall i :: 0 <= i < |es| ==> Incomparable(CamelPath(GetPath(es[i].name)), q)
    ensures Materialize(t, es).ok && !Blocked(Materialize(t, es).tree, q)
    decreases |es|
  {
    if es != [] {
      var init := es[..|es| - 1];
      var e := es[|es| - 1];
      var p := CamelPath(GetPath(e.name));
      assert forall i :: 0 <= i < |init| ==> init[i] == es[i];
      MaterializeClear(t, init, q);
      MaterializeClear(t, init, p);
      var s := Materialize(t, init);
      InstallOk(s.tree, p, LeafFor(e));
      InstallKeepsClear(s.tree, p, LeafFor(e), q);
    }
  }

  /**
   * Every entry of a well-formed catalog ends up callable, with its own
   * metadata, at its own path, when no primitive blocks the way: always on a
   * fresh tree (`FreshTreeClear`).
   */
  lemma {:induction false} MaterializeComplete(t: Tree, es: seq<Entry>)
    requires forall i :: 0 <= i < |es| ==> Installable(es[i])
    requires Disjoint(es)
    requires forall i :: 0 <= i < |es| ==> !Blocked(t, CamelPath(GetPath(es[i].name)))
    ensures Materialize(t, es).ok
    ensures forall i :: 0 <= i < |es| ==> Locate(Materialize(t, es).tree, CamelPath(GetPath(es[i].name))) == Some(LeafFor(es[i]))
    decreases |es|
  {
    if es != [] {
      var init := es[..|es| - 1];
      var e := es[|es| - 1];
      var p := CamelPath(GetPath(e.name));
      assert forall i :: 0 <= i < |init| ==> init[i] == es[i];
      MaterializeComplete(t, init);
      MaterializeClear(t, init, p);
      var s := Materialize(t, init);
      forall i | 0 <= i < |es|
        ensures Locate(Materialize(t, es).tree, CamelPath(GetPath(es[i].name))) == Some(LeafFor(es[i]))
      {
        if i < |es| - 1 {
          InstallElsewhere(s.tree, p, LeafFor(e), CamelPath(GetPath(es[i].name)));
        }
      }
    }
  }

  /** Once the walk has thrown, later entries change nothing. */
  lemma {:induction false} MaterializeStuck(t: Tree, es: seq<Entry>, k: nat)
    requires k <= |es| && !Materialize(t, es[..k]).ok
    ensures Materialize(t, es) == Materialize(t, es[..k])
    decreases |es| - k
  {
    if k < |es| {
      assert es[..k + 1][..k] == es[..k];
      MaterializeStuck(t, es, k + 1);
    } else {
      assert es[..k] == es;
    }
  }

  /** The first entry that throws stops the walk: nothing after it is installed. */
  lemma MaterializeStops(t: Tree, es: seq<Entry>, k: nat)
    requires k < |es| && Materialize(t, es[..k]).ok
    requires !CreateMethod(Materialize(t, es[..k]).tree, es[k]).ok
    ensures !Materialize(t, es).ok
    ensures Materialize(t, es) == Step(CreateMethod(Materialize(t, es[..k]).tree, es[k]).tree, false)
  {
    assert es[..k + 1][..k] == es[..k];
    MaterializeStuck(t, es, k + 1);
  }

  // ----- catalogs that show the property semantics -----

  /** A two-entry catalog is the second `createMethod` on the first one's tree, unless the first threw. */
  lemma MaterializeTwo(t: Tree, e1: Entry, e2: Entry)
    ensures Materialize(t, [e1, e2]) == if CreateMethod(t, e1).ok then CreateMethod(CreateMethod(t, e1).tree, e2) else CreateMethod(t, e1)
  {
    assert [e1, e2][..1] == [e1];
    assert [e1][..0] == [];
    assert Materialize(t, []) == Step(t, true);
    assert Materialize(t, [e1]) == CreateMethod(t, e1);
  }

  lemma PlainPath(name: string, segments: seq<string>)
    requires |segments| >= 1 && segments[0] != "core"
    requires forall i :: 0 <= i < |segments| ==> Naming.Undotted(segments[i]) && Naming.NoUnderscore(segments[i])
    requires name == Naming.Join(segments)
    ensures name != "core" && CamelPath(GetPath(name)) == segments
  {
    Naming.SplitOfJoin(segments);
    assert GetPath(name) == segments;
    forall i | 0 <= i < |segments| ensures Naming.SnakeToCamel(segments[i]) == segments[i] {
      Naming.CamelNoUnderscore(segments[i]);
    }
    assert CamelPath(segments) == segments;
  }

  /** A one-segment method installed on an empty tree: the tree is that callable alone. */
  lemma FreshSingle(e: Entry, seg: string)
    requires Installable(e) && CamelPath(GetPath(e.name)) == [seg]
    ensures CreateMethod(map[], e) == Step(map[seg := LeafFor(e)], true)
  {
    assert InstallAt(map[], [seg], LeafFor(e)) == Step(map[seg := LeafFor(e)], true);
  }

  lemma OwnKeysOfPair(s1: Json, s2: Json)
    ensures OwnKeys([Field("1.x", s1), Field("1", s2)]) == ["1.x", "1"]
  {
    var fs := [Field("1.x", s1), Field("1", s2)];
    assert fs[..1] == [Field("1.x", s1)];
    assert OwnKeys([]) == [];
    assert [Field("1.x", s1)][..0] == [];
    assert OwnKeys(fs[..1]) == ["1.x"];
    assert !HasKey(fs[..1], "1") by {
      assert fs[..1][0].key != "1";
    }
  }

  lemma ObjectKeysOfPair(s1: Json, s2: Json)
    ensures ObjectKeys([Field("1.x", s1), Field("1", s2)]) == ["1", "1.x"]
  {
    OwnKeysOfPair(s1, s2);
    SortPair();
    FilterPair();
  }

  lemma SortPair()
    ensures SortIndices(["1.x", "1"]) == ["1"]
  {
    assert !IsIndexKey("1.x") by {
      assert !IsDigit("1.x"[1]);
    }
    assert IsIndexKey("1") by {
      assert Canonical("1") && DigitsValue("1") == 1;
    }
    assert ["1.x", "1"][1..] == ["1"];
    assert SortIndices(["1"]) == ["1"];
  }

  lemma FilterPair()
    ensures Filter(["1.x", "1"], NotIndexKey) == ["1.x"]
  {
    assert !IsIndexKey("1.x") by {
      assert !IsDigit("1.x"[1]);
    }
    assert IsIndexKey("1") by {
      assert Canonical("1") && DigitsValue("1") == 1;
    }
    assert ["1.x", "1"][1..] == ["1"];
    assert Filter(["1"], NotIndexKey) == [];
  }

  /** `Object.keys` puts the index key "1" before "1.x". */
  lemma IndexKeyFirst(s1: Json, s2: Json)
    ensures CatalogEntries(JObj([Field("1.x", s1), Field("1", s2)])) == Some([Entry("1", s2), Entry("1.x", s1)])
  {
    var fs := [Field("1.x", s1), Field("1", s2)];
    ObjectKeysOfPair(s1, s2);
    LookupCons(fs[0], fs[1..], "1");
    LookupCons(fs[0], fs[1..], "1.x");
    assert [fs[0]] + fs[1..] == fs;
    CatalogOfTwo(fs, "1", "1.x", s2, s1);
  }

  lemma CatalogOfTwo(fs: seq<Field>, k1: string, k2: string, v1: Json, v2: Json)
    requires ObjectKeys(fs) == [k1, k2]
    requires Lookup(fs, k1) == Some(v1) && Lookup(fs, k2) == Some(v2)
    ensures CatalogEntries(JObj(fs)) == Some([Entry(k1, v1), Entry(k2, v2)])
  {
    var r := CatalogEntries(JObj(fs)).value;
    assert |r| == 2 && r[0].name == k1 && r[1].name == k2;
    var e0 := r[0];
    var e1 := r[1];
    assert Lookup(fs, e0.name) == Some(e0.spec);
    assert Lookup(fs, e1.name) == Some(e1.spec);
    assert e0 == Entry(k1, v1);
    assert e1 == Entry(k2, v2);
    assert r == [e0, e1];
  }

  /** A one-segment name without dots or underscores is its own path. */
  lemma PathOfWord(w: string)
    requires w != "core" && Naming.Undotted(w) && Naming.NoUnderscore(w)
    ensures CamelPath(GetPath(w)) == [w]
  {
    Naming.SplitPlain(w);
    PlainPath(w, [w]);
  }

  /** A two-segment name of such words is the path of those two words. */
  lemma PathOfPair(a: string, b: string)
    requires a != "core" && Naming.Undotted(a) && Naming.NoUnderscore(a) && Naming.Undotted(b) && Naming.NoUnderscore(b)
    ensures CamelPath(GetPath(a + "." + b)) == [a, b]
  {
    assert Naming.Join([a, b]) == a + "." + b;
    PlainPath(a + "." + b, [a, b]);
  }

  /** So "1" is installed first, and "1.x" then hangs `x` on its callable. */
  lemma IndexKeyNests(s1: Json, s2: Json)
    requires !s1.JNull? && !s2.JNull?
    ensures var b := Materialize(map[], [Entry("1", s2), Entry("1.x", s1)]);
            && b.ok
            && Locate(b.tree, ["1"]).Some? && Locate(b.tree, ["1"]).value.Callable?
            && Locate(b.tree, ["1"]).value.fullName == "1"
            && Locate(b.tree, ["1", "x"]) == Some(LeafFor(Entry("1.x", s1)))
  {
    var e1 := Entry("1", s2);
    var e2 := Entry("1.x", s1);
    PathOfWord("1");
    PathOfPair("1", "x");
    assert "1" + "." + "x" == "1.x";
    MaterializeTwo(map[], e1, e2);
    FreshSingle(e1, "1");
    var t1 := map["1" := LeafFor(e1)];
    var q := ["1", "x"];
    OneClear(s2);
    InstallResult(t1, q, LeafFor(e2));
    InstallKeepsPrefix(t1, q, LeafFor(e2), 1);
    assert q[..1] == ["1"];
  }

  lemma OneClear(s2: Json)
    ensures !Blocked(map["1" := LeafFor(Entry("1", s2))], ["1", "x"])
  {
    assert ["1", "x"][..1] == ["1"];
  }

  lemma PathOfNested()
    ensures CamelPath(GetPath("a.description.x")) == ["a", "description", "x"]
  {
    assert Naming.Join(["a", "description", "x"]) == "a.description.x";
    PlainPath("a.description.x", ["a", "description", "x"]);
  }

  /** The metadata `createMethod` copies from a spec holding only a description. */
  lemma DescribedMeta(d: Json)
    ensures Meta(JObj([Field("description", d)])) == map["description" := Datum(d)]
  {
    var spec := JObj([Field("description", d)]);
    assert Member(spec, "description") == Some(d);
    assert Member(spec, "params") == None;
  }

  lemma DescriptionIsPrimitive(d: string)
    requires d != ""
    ensures Blocked(map["a" := LeafFor(Entry("a", JObj([Field("description", JStr(d))])))], ["a", "description", "x"])
  {
    var t1 := map["a" := LeafFor(Entry("a", JObj([Field("description", JStr(d))])))];
    DescribedMeta(JStr(d));
    var q := ["a", "description", "x"];
    LocateStep(t1, q, 2);
    assert q[1..][..1] == ["description"];
    assert Locate(t1, q[..2]) == Some(Datum(JStr(d)));
  }

  /**
   * Metadata shares the callable's properties: a non-empty string
   * description is kept by the walk and cannot take a property, so a method
   * nested under it throws.
   */
  lemma DescriptionBlocks(d: string, s: Json)
    requires d != ""
    ensures !Materialize(map[], [Entry("a", JObj([Field("description", JStr(d))])), Entry("a.description.x", s)]).ok
  {
    var e1 := Entry("a", JObj([Field("description", JStr(d))]));
    var e2 := Entry("a.description.x", s);
    PathOfWord("a");
    PathOfNested();
    DescriptionIsPrimitive(d);
    MaterializeTwo(map[], e1, e2);
    FreshSingle(e1, "a");
  }

  lemma EmptyDescriptionWalk(s: Json)
    ensures var leaf := LeafFor(Entry("a.description.x", s));
            InstallAt(map["a" := LeafFor(Entry("a", JObj([Field("description", JStr(""))])))], ["a", "description", "x"], leaf)
            == Step(map["a" := Callable("a", map["description" := Plain(map["x" := leaf])])], true)
  {
    var leaf := LeafFor(Entry("a.description.x", s));
    var meta := map["description" := Datum(JStr(""))];
    DescribedMeta(JStr(""));
    assert InstallAt(map[], ["x"], leaf) == Step(map["x" := leaf], true);
    assert ["a", "description", "x"][1..] == ["description", "x"];
    assert ["description", "x"][1..] == ["x"];
    assert InstallAt(meta, ["description", "x"], leaf) == Step(map["description" := Plain(map["x" := leaf])], true);
  }

  /** An empty description is falsy: the walk replaces it by an object holding the nested method. */
  lemma EmptyDescriptionReplaced(s: Json)
    requires !s.JNull?
    ensures var b := Materialize(map[], [Entry("a", JObj([Field("description", JStr(""))])), Entry("a.description.x", s)]);
            && b.ok
            && Locate(b.tree, ["a", "description"]) == Some(Plain(map["x" := LeafFor(Entry("a.description.x", s))]))
  {
    var e1 := Entry("a", JObj([Field("description", JStr(""))]));
    var e2 := Entry("a.description.x", s);
    PathOfWord("a");
    PathOfNested();
    MaterializeTwo(map[], e1, e2);
    FreshSingle(e1, "a");
    EmptyDescriptionWalk(s);
    var m := map["description" := Plain(map["x" := LeafFor(e2)])];
    assert Locate(map["a" := Callable("a", m)], ["a", "description"]) == Some(m["description"]) by {
      assert ["a", "description"][1..] == ["description"];
    }
  }

  /** A method named after `params` replaces the params copied onto its parent. */
  lemma ParamsReplaced(p: Json, s: Json)
    requires !s.JNull?
    ensures var b := Materialize(map[], [Entry("a", JObj([Field("params", p)])), Entry("a.params", s)]);
            && b.ok
            && Locate(b.tree, ["a", "params"]) == Some(LeafFor(Entry("a.params", s)))
  {
    var e1 := Entry("a", JObj([Field("params", p)]));
    var e2 := Entry("a.params", s);
    PathOfWord("a");
    PathOfPair("a", "params");
    assert "a" + "." + "params" == "a.params";
    MaterializeTwo(map[], e1, e2);
    FreshSingle(e1, "a");
    ParamsClear(p);
    InstallResult(map["a" := LeafFor(e1)], ["a", "params"], LeafFor(e2));
  }

  lemma ParamsClear(p: Json)
    ensures !Blocked(map["a" := LeafFor(Entry("a", JObj([Field("params", p)])))], ["a", "params"])
  {
    assert ["a", "params"][..1] == ["a"];
  }
}
