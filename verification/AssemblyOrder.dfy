/** The order in which resolved rules and actions are assembled: by key, name and kind, equal ones
    as they came. */
module AssemblyOrder {
  import opened Text
  import opened DataFiles

  const NO_KEY := 2147483647  // rules without order or id sort last

  /** A resolved object. A rule has its order, its assigned id, the id in its metadata and those of
      the rules of a legacy bag; other kinds are not assembled. */
  datatype Object =
    | SecRule(name: string, order: int, ruleId: int, metaId: Option<int>, bag: seq<Option<int>>)
    | SecAction(name: string, actionId: Option<int>)
    | Malformed
    | OtherKind

  datatype Item = Item(key: int, name: string, kind: string, from: nat)

  function FirstId(bag: seq<Option<int>>): int {
    if bag == [] then NO_KEY
    else if bag[0].Some? && bag[0].value > 0 then bag[0].value
    else FirstId(bag[1..])
  }

  function SortKey(o: Object): int {
    match o
    case SecRule(_, order, ruleId, metaId, bag) =>
      if order != 0 then order
      else if ruleId > 0 then ruleId
      else if metaId.Some? && metaId.value > 0 then metaId.value
      else FirstId(bag)
    case SecAction(_, id) => if id.Some? && id.value > 0 then id.value else NO_KEY
    case Malformed => NO_KEY
    case OtherKind => NO_KEY
  }

  /** The leaves among the first `n` objects; none when one of them cannot be decoded. `from` is
      the position of the object. */
  function Leaves(objects: seq<Object>, n: nat): Option<seq<Item>>
    requires n <= |objects|
  {
    if n == 0 then Some([])
    else
      var front := Leaves(objects, n - 1);
      if front.None? then None
      else
        match objects[n - 1]
        case SecRule(name, _, _, _, _) => Some(front.value + [Item(SortKey(objects[n - 1]), name, "SecRule", n - 1)])
        case SecAction(name, _) => Some(front.value + [Item(SortKey(objects[n - 1]), name, "SecAction", n - 1)])
        case Malformed => None
        case OtherKind => front
  }

  // ----- the order

  predicate Before(a: Item, b: Item) {
    || a.key < b.key
    || (a.key == b.key && (Less(a.name, b.name) || (a.name == b.name && Less(a.kind, b.kind))))
  }

  predicate Same(a: Item, b: Item) { a.key == b.key && a.name == b.name && a.kind == b.kind }

  lemma BeforeOrder(a: Item, b: Item, c: Item)
    ensures !Before(a, a) && (Before(a, b) ==> !Before(b, a))
    ensures !Before(a, b) && !Before(b, a) <==> Same(a, b)
    ensures Before(a, b) && Before(b, c) ==> Before(a, c)
    ensures !Before(b, a) && !Before(c, b) ==> !Before(c, a)
  {
    hide Less;
    LessTotal(a.name, a.name); LessTotal(a.kind, a.kind);
    LessTotal(a.name, b.name); LessTotal(a.kind, b.kind);
    LessTotal(b.name, a.name); LessTotal(b.kind, a.kind);
    LessTotal(b.name, c.name); LessTotal(b.kind, c.kind);
    LessTotal(c.name, a.name); LessTotal(c.kind, a.kind);
    Transitive(a.name, b.name, c.name); Transitive(c.name, b.name, a.name);
    Transitive(a.kind, b.kind, c.kind); Transitive(c.kind, b.kind, a.kind);
    Transitive(b.name, c.name, a.name); Transitive(c.name, a.name, b.name);
    Transitive(b.kind, c.kind, a.kind); Transitive(c.kind, a.kind, b.kind);
  }

  lemma Transitive(a: string, b: string, c: string)
    ensures Less(a, b) && Less(b, c) ==> Less(a, c)
  {
    hide Less;
    if Less(a, b) && Less(b, c) { LessTransitive(a, b, c); }
  }

  ghost predicate Sorted(s: seq<Item>) { forall i, j :: 0 <= i < j < |s| ==> !Before(s[j], s[i]) }

  /** The items that sort equal to `c`, in order. */
  function Class(s: seq<Item>, c: Item): seq<Item> {
    if s == [] then [] else (if Same(s[0], c) then [s[0]] else []) + Class(s[1..], c)
  }

  /** `r` is `s` in order, equal items as they came. */
  ghost predicate Arranges(r: seq<Item>, s: seq<Item>) { Sorted(r) && forall c :: Class(r, c) == Class(s, c) }

  lemma {:induction false} ClassMember(s: seq<Item>, i: nat, c: Item)
    requires i < |s| && Same(s[i], c)
    ensures s[i] in Class(s, c)
  {
    hide Same;
    if i > 0 { ClassMember(s[1..], i - 1, c); }
  }

  lemma {:induction false} ClassFrom(s: seq<Item>, c: Item, x: Item)
    requires x in Class(s, c)
    ensures x in s && Same(x, c)
  {
    hide Same;
    if s != [] && !(Same(s[0], c) && x == s[0]) { ClassFrom(s[1..], c, x); }
  }

  lemma {:induction false} CountInClass(s: seq<Item>, x: Item)
    ensures multiset(s)[x] == multiset(Class(s, x))[x]
  {
    if s != [] {
      CountInClass(s[1..], x);
      assert s == [s[0]] + s[1..];
    }
  }

  /** An arrangement loses and repeats nothing. */
  lemma ArrangesAll(r: seq<Item>, s: seq<Item>)
    requires Arranges(r, s)
    ensures multiset(r) == multiset(s)
  {
    hide Class, Sorted;
    forall x ensures multiset(r)[x] == multiset(s)[x] {
      CountInClass(r, x);
      CountInClass(s, x);
    }
  }

  /** The first items of two arrangements sort equal. */
  lemma SameHead(r: seq<Item>, t: seq<Item>)
    requires Sorted(r) && Sorted(t) && r != [] && t != [] && forall c :: Class(r, c) == Class(t, c)
    ensures Same(r[0], t[0])
  {
    hide Before, Same, Class;
    NotBefore(r, t);
    NotBefore(t, r);
    BeforeOrder(r[0], t[0], t[0]);
  }

  lemma NotBefore(r: seq<Item>, t: seq<Item>)
    requires Sorted(t) && r != [] && t != [] && forall c :: Class(r, c) == Class(t, c)
    ensures !Before(r[0], t[0])
  {
    hide Before, Same, Class;
    BeforeOrder(r[0], r[0], r[0]);
    ClassMember(r, 0, r[0]);
    ClassFrom(t, r[0], r[0]);
    var j :| 0 <= j < |t| && t[j] == r[0];
  }

  lemma ClassStep(s: seq<Item>, c: Item)
    requires s != []
    ensures Same(s[0], c) ==> Class(s, c) == [s[0]] + Class(s[1..], c) && Class(s[1..], c) == Class(s, c)[1..]
    ensures !Same(s[0], c) ==> Class(s, c) == Class(s[1..], c)
  {
    hide Same;
  }

  lemma NoClasses(s: seq<Item>)
    requires forall c :: Class(s, c) == []
    ensures s == []
  {
    hide Before;
    if s != [] {
      BeforeOrder(s[0], s[0], s[0]);
      ClassMember(s, 0, s[0]);
    }
  }

  /** There is one arrangement only. */
  lemma {:induction false} ArrangementUnique(r: seq<Item>, t: seq<Item>)
    requires Sorted(r) && Sorted(t) && forall c :: Class(r, c) == Class(t, c)
    ensures r == t
    decreases |r|
  {
    hide Before;
    if r == [] {
      NoClasses(t);
    } else if t == [] {
      NoClasses(r);
    } else {
      SameHead(r, t);
      assert Class(r, r[0])[0] == r[0] && Class(t, r[0])[0] == t[0];
      forall c ensures Class(r[1..], c) == Class(t[1..], c) {
        assert Class(r, c) == Class(t, c);
        ClassStep(r, c);
        ClassStep(t, c);
      }
      ArrangementUnique(r[1..], t[1..]);
      assert r == [r[0]] + r[1..] && t == [t[0]] + t[1..];
    }
  }

  // ----- sorting

  lemma {:induction false} ClassJoin(a: seq<Item>, b: seq<Item>, c: Item)
    ensures Class(a + b, c) == Class(a, c) + Class(b, c)
  {
    hide Same;
    if a == [] {
      assert a + b == b;
    } else {
      ClassJoin(a[1..], b, c);
      assert (a + b)[1..] == a[1..] + b;
      ClassStep(a + b, c);
      ClassStep(a, c);
    }
  }

  lemma {:induction false} NoneLike(b: seq<Item>, c: Item)
    requires forall k :: 0 <= k < |b| ==> !Same(b[k], c)
    ensures Class(b, c) == []
  {
    hide Same;
    if b != [] { NoneLike(b[1..], c); }
  }

  /** Inserting an item after its equals adds it at the end of its class. */
  lemma ClassInsert(a: seq<Item>, x: Item, b: seq<Item>, c: Item)
    requires forall k :: 0 <= k < |b| ==> !Same(b[k], x)
    ensures Class(a + [x] + b, c) == Class(a + b + [x], c)
  {
    hide Class;
    ClassJoin(a + [x], b, c);
    ClassJoin(a, [x], c);
    ClassJoin(a + b, [x], c);
    ClassJoin(a, b, c);
    if Same(x, c) {
      NoneLike(b, c);
    } else {
      var s := [x];
      NoneLike(s, c);
    }
  }

  method InsertStable(s: seq<Item>, x: Item) returns (r: seq<Item>)
    requires Sorted(s)
    ensures Sorted(r) && forall c :: Class(r, c) == Class(s + [x], c)
  {
    hide Before, Same, Class;
    var p := 0;
    while p < |s| && !Before(x, s[p])
      invariant 0 <= p <= |s| && forall k :: 0 <= k < p ==> !Before(x, s[k])
    {
      p := p + 1;
    }
    r := s[..p] + [x] + s[p..];
    forall k | p <= k < |s| ensures !Before(s[k], x) && !Same(s[k], x) {
      BeforeOrder(s[p], s[k], x);
      BeforeOrder(s[k], x, x);
    }
    assert s == s[..p] + s[p..];
    forall c ensures Class(r, c) == Class(s + [x], c) { ClassInsert(s[..p], x, s[p..], c); }
  }

  /** `sort.SliceStable` on the leaves. */
  method SortStable(s: seq<Item>) returns (r: seq<Item>)
    ensures Arranges(r, s)
  {
    hide Before, Class;
    r := [];
    for i := 0 to |s|
      invariant Sorted(r) && forall c :: Class(r, c) == Class(s[..i], c)
    {
      ghost var was := r;
      r := InsertStable(r, s[i]);
      assert s[..i + 1] == s[..i] + [s[i]];
      forall c ensures Class(r, c) == Class(s[..i + 1], c) {
        ClassJoin(was, [s[i]], c);
        ClassJoin(s[..i], [s[i]], c);
      }
    }
    assert s[..|s|] == s;
  }

  /** `r` has the rules and actions of `objects` in order; it has none when one of them cannot be decoded. */
  ghost predicate Assembles(r: Option<seq<Item>>, objects: seq<Object>) {
    var leaves := Leaves(objects, |objects|);
    r.Some? == leaves.Some? && (r.Some? ==> Arranges(r.value, leaves.value))
  }

  /** Collects the leaves and puts them in order. */
  method ArrangeLeaves(objects: seq<Object>) returns (r: Option<seq<Item>>)
    ensures Assembles(r, objects)
  {
    hide Arranges, SortKey;
    var items := [];
    for i := 0 to |objects|
      invariant Leaves(objects, i) == Some(items)
    {
      match objects[i]
      case SecRule(name, _, _, _, _) => items := items + [Item(SortKey(objects[i]), name, "SecRule", i)];
      case SecAction(name, _) => items := items + [Item(SortKey(objects[i]), name, "SecAction", i)];
      case Malformed =>
        NoLeaves(objects, i + 1, |objects|);
        return None;
      case OtherKind =>
    }
    var sorted := SortStable(items);
    r := Some(sorted);
  }

  lemma {:induction false} NoLeaves(objects: seq<Object>, i: nat, n: nat)
    requires i <= n <= |objects| && Leaves(objects, i) == None
    ensures Leaves(objects, n) == None
  {
    hide SortKey;
    if i < n { NoLeaves(objects, i, n - 1); }
  }

  // ----- the probe's assembler

  /** What the probe makes of one object: an item, nothing, or an error. */
  datatype Probed = Leaf(item: Item) | Skip | Fail

  method ProbeItem(o: Object, from: nat) returns (r: Probed)
    ensures r.Fail? <==> o.Malformed?
    ensures r.Leaf? <==> o.SecRule? || o.SecAction?
    ensures r.Leaf? ==> r.item == Item(SortKey(o), o.name, if o.SecRule? then "SecRule" else "SecAction", from)
  {
    hide SortKey;
    match o
    case SecRule(name, _, _, _, _) => r := Leaf(Item(SortKey(o), name, "SecRule", from));
    case SecAction(name, _) => r := Leaf(Item(SortKey(o), name, "SecAction", from));
    case Malformed => r := Fail;
    case OtherKind => r := Skip;
  }

  method ProbeLeaves(objects: seq<Object>) returns (r: Option<seq<Item>>)
    ensures Assembles(r, objects)
  {
    hide Arranges, SortKey;
    var items := [];
    for i := 0 to |objects|
      invariant Leaves(objects, i) == Some(items)
    {
      var p := ProbeItem(objects[i], i);
      if p.Fail? {
        NoLeaves(objects, i + 1, |objects|);
        return None;
      }
      if p.Skip? { continue; }
      items := items + [p.item];
    }
    var sorted := SortStable(items);
    r := Some(sorted);
  }

  /** The operator and the probe assemble the same. */
  lemma AssemblersAgree(objects: seq<Object>, a: Option<seq<Item>>, b: Option<seq<Item>>)
    requires Assembles(a, objects) && Assembles(b, objects)
    ensures a == b
  {
    hide Leaves, Class, Sorted;
    if a.Some? { ArrangementUnique(a.value, b.value); }
  }

  // ----- where an object comes

  function Positive(n: int): Option<int> { if n > 0 then Some(n) else None }

  function PositiveOf(n: Option<int>): Option<int> { if n.Some? then Positive(n.value) else None }

  function PositiveAll(ids: seq<Option<int>>): (r: seq<Option<int>>)
    ensures |r| == |ids| && forall i :: 0 <= i < |r| ==> r[i] == PositiveOf(ids[i])
  {
    seq(|ids|, i requires 0 <= i < |ids| => PositiveOf(ids[i]))
  }

  /** What may decide the place of an object, in turn: its order, its assigned id, the id in its metadata
      and those of the rules of its bag. An order counts unless it is zero, an id if it is positive. */
  function Candidates(o: Object): seq<Option<int>> {
    match o
    case SecRule(_, order, ruleId, metaId, bag) =>
      [if order == 0 then None else Some(order)] + ([Positive(ruleId)] + ([PositiveOf(metaId)] + PositiveAll(bag)))
    case SecAction(_, id) => [PositiveOf(id)]
    case Malformed => []
    case OtherKind => []
  }

  /** The first candidate there is decides; without any the object comes last. */
  ghost predicate Decides(c: seq<Option<int>>, key: int) {
    || (exists i :: 0 <= i < |c| && c[i] == Some(key) && forall j :: 0 <= j < i ==> c[j] == None)
    || (key == 2147483647 && forall j :: 0 <= j < |c| ==> c[j] == None)
  }

  ghost predicate PlacedBy(o: Object, key: int) { Decides(Candidates(o), key) }

  lemma DecidesNow(key: int, c: seq<Option<int>>)
    ensures Decides([Some(key)] + c, key)
  {
    assert ([Some(key)] + c)[0] == Some(key);
  }

  lemma DecidesLater(c: seq<Option<int>>, key: int)
    requires Decides(c, key)
    ensures Decides([None] + c, key)
  {
    var d := [None] + c;
    assert forall j :: 0 < j < |d| ==> d[j] == c[j - 1];
    if i :| 0 <= i < |c| && c[i] == Some(key) && forall j :: 0 <= j < i ==> c[j] == None {
      assert d[i + 1] == Some(key);
    }
  }

  lemma {:induction false} FirstIdIs(bag: seq<Option<int>>)
    ensures Decides(PositiveAll(bag), FirstId(bag))
  {
    hide Decides, PositiveAll;
    if bag == [] {
      NothingDecides(PositiveAll(bag));
    } else {
      FirstIdIs(bag[1..]);
      assert PositiveAll(bag) == [PositiveOf(bag[0])] + PositiveAll(bag[1..]);
      if PositiveOf(bag[0]) == None {
        DecidesLater(PositiveAll(bag[1..]), FirstId(bag[1..]));
      } else {
        DecidesNow(FirstId(bag), PositiveAll(bag[1..]));
      }
    }
  }

  lemma NothingDecides(c: seq<Option<int>>)
    requires c == []
    ensures Decides(c, 2147483647)
  {
  }

  lemma Next(x: Option<int>, c: seq<Option<int>>, key: int)
    requires if x.Some? then x.value == key else Decides(c, key)
    ensures Decides([x] + c, key)
  {
    hide Decides;
    if x.Some? { DecidesNow(key, c); } else { DecidesLater(c, key); }
  }

  lemma PlacedByKey(o: Object)
    ensures PlacedBy(o, SortKey(o))
  {
    hide Decides, PositiveAll, FirstId;
    var key := SortKey(o);
    NothingDecides([]);
    if o.SecRule? {
      var c := PositiveAll(o.bag);
      FirstIdIs(o.bag);
      var order := if o.order == 0 then None else Some(o.order);
      if order == None && Positive(o.ruleId) == None { Next(PositiveOf(o.metaId), c, key); }
      if order == None { Next(Positive(o.ruleId), [PositiveOf(o.metaId)] + c, key); }
      Next(order, [Positive(o.ruleId)] + ([PositiveOf(o.metaId)] + c), key);
    } else if o.SecAction? {
      Next(PositiveOf(o.actionId), [], key);
      assert [PositiveOf(o.actionId)] + [] == [PositiveOf(o.actionId)];
    }
  }

  lemma PlaceUnique(o: Object, a: int, b: int)
    requires PlacedBy(o, a) && PlacedBy(o, b)
    ensures a == b
  {
    hide Candidates;
    var c := Candidates(o);
    if i :| 0 <= i < |c| && c[i] == Some(a) && forall j :: 0 <= j < i ==> c[j] == None {
      if k :| 0 <= k < |c| && c[k] == Some(b) && forall j :: 0 <= j < k ==> c[j] == None {
        assert i == k;
      }
    }
  }

  lemma {:induction false} LeafOf(objects: seq<Object>, n: nat, i: nat)
    requires i < n <= |objects| && (objects[i].SecRule? || objects[i].SecAction?) && Leaves(objects, n).Some?
    ensures exists x :: x in Leaves(objects, n).value && x.from == i && x.key == SortKey(objects[i]) && x.name == objects[i].name
  {
    hide SortKey;
    if i < n - 1 { LeafOf(objects, n - 1, i); }
    var front := Leaves(objects, n - 1).value;
    assert forall x :: x in front ==> x in Leaves(objects, n).value;
    if i == n - 1 {
      var all := Leaves(objects, n).value;
      assert all[|all| - 1].from == i;
    }
  }

  /** Of two rules or actions the one placed by the smaller number comes first in every assembly. */
  lemma {:induction false} PlacesDecide(objects: seq<Object>, r: seq<Item>, i: nat, j: nat, a: int, b: int)
    requires Assembles(Some(r), objects) && i < |objects| && j < |objects|
    requires (objects[i].SecRule? || objects[i].SecAction?) && (objects[j].SecRule? || objects[j].SecAction?)
    requires PlacedBy(objects[i], a) && PlacedBy(objects[j], b) && a < b
    ensures exists x, y :: 0 <= x < y < |r| && r[x].from == i && r[y].from == j
  {
    hide Class, SortKey, Leaves, PlacedBy, Before;
    var leaves := Leaves(objects, |objects|).value;
    LeafOf(objects, |objects|, i);
    LeafOf(objects, |objects|, j);
    var p :| p in leaves && p.from == i && p.key == SortKey(objects[i]);
    var q :| q in leaves && q.from == j && q.key == SortKey(objects[j]);
    PlacedByKey(objects[i]);
    PlacedByKey(objects[j]);
    PlaceUnique(objects[i], a, p.key);
    PlaceUnique(objects[j], b, q.key);
    ArrangesAll(r, leaves);
    assert p in multiset(r) && q in multiset(r);
    var x :| 0 <= x < |r| && r[x] == p;
    var y :| 0 <= y < |r| && r[y] == q;
    assert Before(p, q) by { SmallerKey(p, q); }
    BeforeOrder(p, p, p);
  }

  lemma SmallerKey(p: Item, q: Item)
    requires p.key < q.key
    ensures Before(p, q)
  {
  }

  /** At the same place the smaller name comes first, and of one name an action before a rule. */
  lemma TiesDecide(p: Item, q: Item)
    requires p.key == q.key && (Less(p.name, q.name) || (p.name == q.name && p.kind == "SecAction" && q.kind == "SecRule"))
    ensures Before(p, q) && !Before(q, p)
  {
    LessTotal(p.name, q.name);
    LessMeans("SecAction", "SecRule", 3);
    LessMeans("SecRule", "SecAction", 3);
  }

  /** Only rules and actions are assembled, each under its own name and kind. */
  lemma {:induction false} OnlyLeaves(objects: seq<Object>, n: nat, x: Item)
    requires n <= |objects| && Leaves(objects, n).Some? && x in Leaves(objects, n).value
    ensures x.from < n && (objects[x.from].SecRule? || objects[x.from].SecAction?) && x.name == objects[x.from].name
    ensures x.kind == if objects[x.from].SecRule? then "SecRule" else "SecAction"
  {
    hide SortKey;
    if n > 0 && x in Leaves(objects, n - 1).value { OnlyLeaves(objects, n - 1, x); }
  }

  /** Nothing is assembled exactly when an object cannot be decoded. */
  lemma {:induction false} RefusedExactly(objects: seq<Object>, n: nat)
    requires n <= |objects|
    ensures Leaves(objects, n).None? <==> exists i :: 0 <= i < n && objects[i].Malformed?
  {
    hide SortKey;
    if n > 0 { RefusedExactly(objects, n - 1); }
  }
}
