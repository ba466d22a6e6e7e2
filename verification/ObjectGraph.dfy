/** Freezing and cloning object graphs (deepFreezeValue of packages/game-core/src/match-state-machine.ts,
    deepFreeze of packages/shared/src/cards.sampling-vector-helpers.ts, cloneAndFreeze of
    packages/shared/src/events.ts).  A heap is a finite map from references to nodes; it may hold
    shared nodes and cycles. */
module ObjectGraph {
  import opened Wrappers
  import opened Basics

  /** Forbidden stands for undefined, a hole, a bigint, a function or a symbol. */
  datatype Value = Prim(p: int) | Forbidden | Ref(id: nat)

  datatype Kind = ArrayNode | PlainNode | InstanceNode

  datatype Field = Field(key: string, value: Value)

  datatype Node = Node(kind: Kind, fields: seq<Field>)

  type Heap = map<nat, Node>

  predicate Points(h: Heap, v: Value) {
    v.Ref? ==> v.id in h
  }

  predicate FieldsPoint(h: Heap, fields: seq<Field>) {
    forall i :: 0 <= i < |fields| ==> Points(h, fields[i].value)
  }

  predicate Linked(h: Heap) {
    forall n :: n in h ==> FieldsPoint(h, h[n].fields)
  }

  predicate HasChild(h: Heap, n: nat, c: nat) {
    n in h && exists i :: 0 <= i < |h[n].fields| && h[n].fields[i].value == Ref(c)
  }

  /** A walk along references: p lists the nodes after n. */
  predicate Walk(h: Heap, n: nat, p: seq<nat>)
    decreases |p|
  {
    p == [] || (HasChild(h, n, p[0]) && Walk(h, p[0], p[1..]))
  }

  function Last(n: nat, p: seq<nat>): nat {
    if p == [] then n else p[|p| - 1]
  }

  ghost predicate Reaches(h: Heap, a: nat, b: nat) {
    exists p :: Walk(h, a, p) && Last(a, p) == b
  }

  lemma ReachesSelf(h: Heap, a: nat)
    ensures Reaches(h, a, a)
  {
    assert Walk(h, a, []) && Last(a, []) == a;
  }

  lemma ReachesThrough(h: Heap, a: nat, c: nat, b: nat)
    requires HasChild(h, a, c) && Reaches(h, c, b)
    ensures Reaches(h, a, b)
  {
    var p :| Walk(h, c, p) && Last(c, p) == b;
    assert ([c] + p)[1..] == p;
    assert Walk(h, a, [c] + p) && Last(a, [c] + p) == b;
  }

  // ---- deep freeze ----

  ghost predicate ClosedOver(h: Heap, nodes: set<nat>, seen: set<nat>) {
    forall n, c :: n in nodes && HasChild(h, n, c) ==> c in seen
  }

  lemma {:induction false} ClosedHoldsWalk(h: Heap, nodes: set<nat>, n: nat, p: seq<nat>)
    requires ClosedOver(h, nodes, nodes) && n in nodes && Walk(h, n, p)
    ensures Last(n, p) in nodes
    decreases |p|
  {
    if p != [] {
      ClosedHoldsWalk(h, nodes, p[0], p[1..]);
    }
  }

  lemma ClosedHoldsReachable(h: Heap, nodes: set<nat>, a: nat, b: nat)
    requires ClosedOver(h, nodes, nodes) && a in nodes && Reaches(h, a, b)
    ensures b in nodes
  {
    var p :| Walk(h, a, p) && Last(a, p) == b;
    ClosedHoldsWalk(h, nodes, a, p);
  }

  // ---- clone ----

  datatype CloneError = NotSerializable | Circular | ClassInstance

  /** The tree a clone owns: every node of it is its own. */
  datatype Tree = Leaf(p: int) | Branch(kind: Kind, keys: seq<string>, children: seq<Tree>)

  function Keys(fields: seq<Field>): (r: seq<string>)
    ensures |r| == |fields|
  {
    seq(|fields|, i requires 0 <= i < |fields| => fields[i].key)
  }

  /** `cloneAndFreezeInner`: `path` holds the objects still being cloned. */
  function CloneValue(h: Heap, v: Value, path: set<nat>): Result<Tree, CloneError>
    requires Linked(h) && Points(h, v)
    decreases h.Keys - path, 0, 0
  {
    match v
    case Forbidden => Err(NotSerializable)
    case Prim(p) => Ok(Leaf(p))
    case Ref(n) =>
      if n in path then Err(Circular)
      else if h[n].kind == InstanceNode then Err(ClassInstance)
      else
        assert FieldsPoint(h, h[n].fields);
        var children := CloneFields(h, h[n].fields, path + {n});
        if children.Err? then Err(children.error)
        else Ok(Branch(h[n].kind, Keys(h[n].fields), children.value))
  }

  function CloneFields(h: Heap, fields: seq<Field>, path: set<nat>): (r: Result<seq<Tree>, CloneError>)
    requires Linked(h) && FieldsPoint(h, fields)
    ensures r.Ok? ==> |r.value| == |fields|
    decreases h.Keys - path, 1, |fields|
  {
    if fields == [] then Ok([])
    else
      var first := CloneValue(h, fields[0].value, path);
      if first.Err? then Err(first.error)
      else
        var rest := CloneFields(h, fields[1..], path);
        if rest.Err? then Err(rest.error) else Ok([first.value] + rest.value)
  }

  /** The tree is what unfolding the graph at v shows. */
  predicate Unfolds(h: Heap, v: Value, t: Tree)
    decreases t
  {
    match t
    case Leaf(p) => v == Prim(p)
    case Branch(kind, keys, children) =>
      && v.Ref? && v.id in h && h[v.id].kind == kind != InstanceNode && keys == Keys(h[v.id].fields)
      && |children| == |keys|
      && forall i :: 0 <= i < |children| ==> Unfolds(h, h[v.id].fields[i].value, children[i])
  }

  lemma {:induction false} CloneUnfolds(h: Heap, v: Value, path: set<nat>)
    requires Linked(h) && Points(h, v) && CloneValue(h, v, path).Ok?
    ensures Unfolds(h, v, CloneValue(h, v, path).value)
    decreases h.Keys - path, 0, 0
  {
    if v.Ref? {
      CloneFieldsUnfold(h, h[v.id].fields, path + {v.id});
    }
  }

  lemma {:induction false} CloneFieldsUnfold(h: Heap, fields: seq<Field>, path: set<nat>)
    requires Linked(h) && FieldsPoint(h, fields) && CloneFields(h, fields, path).Ok?
    ensures forall i :: 0 <= i < |fields| ==> Unfolds(h, fields[i].value, CloneFields(h, fields, path).value[i])
    decreases h.Keys - path, 1, |fields|
  {
    if fields != [] {
      CloneUnfolds(h, fields[0].value, path);
      CloneFieldsUnfold(h, fields[1..], path);
      var ts := CloneFields(h, fields, path).value;
      forall i | 0 <= i < |fields| ensures Unfolds(h, fields[i].value, ts[i]) {
        if i > 0 {
          assert fields[1..][i - 1] == fields[i] && ts[1..][i - 1] == ts[i];
        }
      }
    }
  }

  // ---- when a clone succeeds ----

  predicate Avoids(s: seq<nat>, path: set<nat>) {
    forall i :: 0 <= i < |s| ==> s[i] !in path
  }

  predicate NodeFits(node: Node) {
    node.kind != InstanceNode && forall i :: 0 <= i < |node.fields| ==> node.fields[i].value != Forbidden
  }

  /** No walk from n meets the same object twice. */
  ghost predicate NoCycleFrom(h: Heap, n: nat) {
    forall p :: Walk(h, n, p) ==> Distinct([n] + p)
  }

  ghost predicate AllFitFrom(h: Heap, n: nat) {
    forall m :: Reaches(h, n, m) ==> m in h && NodeFits(h[m])
  }

  lemma {:induction false} EachFieldCloned(h: Heap, fields: seq<Field>, path: set<nat>, i: nat)
    requires Linked(h) && FieldsPoint(h, fields) && CloneFields(h, fields, path).Ok? && i < |fields|
    ensures CloneValue(h, fields[i].value, path).Ok?
    decreases |fields|
  {
    if i > 0 {
      EachFieldCloned(h, fields[1..], path, i - 1);
    }
  }

  lemma ClonedNodeFits(h: Heap, n: nat, path: set<nat>)
    requires Linked(h) && n in h && CloneValue(h, Ref(n), path).Ok?
    ensures NodeFits(h[n])
    ensures forall c :: HasChild(h, n, c) ==> c in h && CloneValue(h, Ref(c), path + {n}).Ok?
  {
    var fields := h[n].fields;
    assert FieldsPoint(h, fields);
    forall i | 0 <= i < |fields| ensures CloneValue(h, fields[i].value, path + {n}).Ok? {
      EachFieldCloned(h, fields, path + {n}, i);
    }
  }

  lemma {:induction false} ClonedWalksAreSimple(h: Heap, n: nat, path: set<nat>, p: seq<nat>)
    requires Linked(h) && n in h && CloneValue(h, Ref(n), path).Ok? && Walk(h, n, p)
    ensures Distinct([n] + p) && Avoids([n] + p, path) && Last(n, p) in h && NodeFits(h[Last(n, p)])
    decreases |p|
  {
    hide CloneValue;
    ClonedNodeFits(h, n, path);
    assert n !in path by { NotInPath(h, n, path); }
    if p == [] {
      assert [n] + p == [n];
    } else {
      ClonedWalksAreSimple(h, p[0], path + {n}, p[1..]);
      assert p == [p[0]] + p[1..];
      SimpleFront(n, p, path);
    }
  }

  lemma SimpleFront(n: nat, p: seq<nat>, path: set<nat>)
    requires n !in path && Distinct(p) && Avoids(p, path + {n})
    ensures Distinct([n] + p) && Avoids([n] + p, path)
  {
    assert forall i :: 0 <= i < |p| ==> ([n] + p)[i + 1] == p[i] && p[i] !in path + {n};
  }

  lemma NotInPath(h: Heap, n: nat, path: set<nat>)
    requires Linked(h) && n in h && CloneValue(h, Ref(n), path).Ok?
    ensures n !in path
  {
  }

  ghost predicate SafeFrom(h: Heap, n: nat, path: set<nat>) {
    AllFitFrom(h, n) && forall p :: Walk(h, n, p) ==> Distinct([n] + p) && Avoids([n] + p, path)
  }

  lemma SafeChild(h: Heap, n: nat, c: nat, path: set<nat>)
    requires Linked(h) && SafeFrom(h, n, path) && HasChild(h, n, c)
    ensures SafeFrom(h, c, path + {n})
  {
    forall q | Walk(h, c, q) ensures Distinct([c] + q) && Avoids([c] + q, path + {n}) {
      assert ([c] + q)[1..] == q;
      assert Walk(h, n, [c] + q);
      var whole := [n] + ([c] + q);
      assert Distinct(whole) && Avoids(whole, path);
      assert forall i :: 0 <= i < |[c] + q| ==> ([c] + q)[i] == whole[i + 1];
      assert whole[0] == n;
    }
    forall m | Reaches(h, c, m) ensures m in h && NodeFits(h[m]) {
      ReachesThrough(h, n, c, m);
    }
  }

  lemma {:induction false} SafeClones(h: Heap, n: nat, path: set<nat>)
    requires Linked(h) && n in h && SafeFrom(h, n, path)
    ensures CloneValue(h, Ref(n), path).Ok?
    decreases h.Keys - path, 0
  {
    hide SafeFrom;
    assert n !in path && NodeFits(h[n]) by { SafeHere(h, n, path); }
    var fields := h[n].fields;
    assert FieldsPoint(h, fields);
    forall i | 0 <= i < |fields| ensures CloneValue(h, fields[i].value, path + {n}).Ok? {
      if fields[i].value.Ref? {
        var c := fields[i].value.id;
        assert HasChild(h, n, c);
        SafeChild(h, n, c, path);
        SafeClones(h, c, path + {n});
      }
    }
    FieldsClone(h, fields, path + {n});
  }

  lemma SafeHere(h: Heap, n: nat, path: set<nat>)
    requires SafeFrom(h, n, path)
    ensures n !in path && n in h && NodeFits(h[n])
  {
    assert Walk(h, n, []);
    assert ([n] + [])[0] == n;
    ReachesSelf(h, n);
  }

  lemma {:induction false} FieldsClone(h: Heap, fields: seq<Field>, path: set<nat>)
    requires Linked(h) && FieldsPoint(h, fields)
    requires forall i :: 0 <= i < |fields| ==> CloneValue(h, fields[i].value, path).Ok?
    ensures CloneFields(h, fields, path).Ok?
    decreases |fields|
  {
    hide CloneValue;
    if fields != [] {
      assert forall i :: 0 <= i < |fields| - 1 ==> fields[1..][i] == fields[i + 1];
      FieldsClone(h, fields[1..], path);
    }
  }

  /** A clone succeeds exactly when no cycle and nothing unserializable can be reached; sharing is fine. */
  lemma CloneSucceedsIffAcyclic(h: Heap, n: nat)
    requires Linked(h) && n in h
    ensures CloneValue(h, Ref(n), {}).Ok? <==> NoCycleFrom(h, n) && AllFitFrom(h, n)
  {
    if CloneValue(h, Ref(n), {}).Ok? {
      forall p | Walk(h, n, p) ensures Distinct([n] + p) {
        ClonedWalksAreSimple(h, n, {}, p);
      }
      forall m | Reaches(h, n, m) ensures m in h && NodeFits(h[m]) {
        var p :| Walk(h, n, p) && Last(n, p) == m;
        ClonedWalksAreSimple(h, n, {}, p);
      }
    }
    if NoCycleFrom(h, n) && AllFitFrom(h, n) {
      assert SafeFrom(h, n, {});
      SafeClones(h, n, {});
    }
  }

  // ---- where a clone lives ----

  function Size(t: Tree): nat {
    match t
    case Leaf(_) => 0
    case Branch(_, _, children) => 1 + SizeAll(children)
  }

  function SizeAll(ts: seq<Tree>): nat {
    if ts == [] then 0 else Size(ts[0]) + SizeAll(ts[1..])
  }

  /** The tree stands at v, its nodes exactly the references lo .. lo + Size(t) - 1, each used once:
      the children one after the other, then their parent. */
  predicate Laid(h: Heap, v: Value, t: Tree, lo: nat)
    decreases t
  {
    match t
    case Leaf(p) => v == Prim(p)
    case Branch(kind, keys, children) =>
      var n := lo + Size(t) - 1;
      v == Ref(n) && n in h && h[n].kind == kind && keys == Keys(h[n].fields) && LaidAll(h, h[n].fields, children, lo)
  }

  predicate LaidAll(h: Heap, fields: seq<Field>, ts: seq<Tree>, lo: nat)
    decreases ts
  {
    if ts == [] then fields == []
    else fields != [] && Laid(h, fields[0].value, ts[0], lo) && LaidAll(h, fields[1..], ts[1..], lo + Size(ts[0]))
  }

  ghost predicate Extends(h: Heap, big: Heap) {
    forall n :: n in h ==> n in big && big[n] == h[n]
  }

  lemma {:induction false} LaidGrows(h: Heap, big: Heap, v: Value, t: Tree, lo: nat)
    requires Extends(h, big) && Laid(h, v, t, lo)
    ensures Laid(big, v, t, lo)
    decreases t
  {
    if t.Branch? {
      LaidAllGrows(h, big, h[v.id].fields, t.children, lo);
    }
  }

  lemma {:induction false} LaidAllGrows(h: Heap, big: Heap, fields: seq<Field>, ts: seq<Tree>, lo: nat)
    requires Extends(h, big) && LaidAll(h, fields, ts, lo)
    ensures LaidAll(big, fields, ts, lo)
    decreases ts
  {
    if ts != [] {
      LaidGrows(h, big, fields[0].value, ts[0], lo);
      LaidAllGrows(h, big, fields[1..], ts[1..], lo + Size(ts[0]));
    }
  }

  lemma {:induction false} LaidAllPoints(h: Heap, fields: seq<Field>, ts: seq<Tree>, lo: nat)
    requires LaidAll(h, fields, ts, lo)
    ensures FieldsPoint(h, fields)
    decreases ts
  {
    if ts != [] {
      LaidAllPoints(h, fields[1..], ts[1..], lo + Size(ts[0]));
      assert forall i :: 0 < i < |fields| ==> fields[i] == fields[1..][i - 1];
    }
  }

  /** The references lo .. hi - 1. */
  function Interval(lo: nat, hi: nat): (r: set<nat>)
    ensures forall n :: n in r <==> lo <= n < hi
  {
    if hi <= lo then {} else Interval(lo, hi - 1) + {hi - 1}
  }

  /** From one heap to a later one: old nodes untouched, the new ones numbered on from `next` and frozen. */
  datatype Space = Space(nodes: Heap, frozen: set<nat>, next: nat)

  ghost predicate Grew(a: Space, b: Space) {
    && a.next <= b.next && Extends(a.nodes, b.nodes)
    && b.nodes.Keys == a.nodes.Keys + Interval(a.next, b.next)
    && b.frozen == a.frozen + Interval(a.next, b.next)
  }

  lemma GrewNone(a: Space)
    ensures Grew(a, a)
  {
    assert Interval(a.next, a.next) == {};
  }

  lemma GrewOn(a: Space, b: Space, c: Space)
    requires Grew(a, b) && Grew(b, c)
    ensures Grew(a, c)
  {
    assert Interval(a.next, c.next) == Interval(a.next, b.next) + Interval(b.next, c.next);
  }

  class Objects {
    var nodes: Heap
    var frozen: set<nat>
    var next: nat

    predicate Valid()
      reads this
    {
      Linked(nodes) && forall n :: n in nodes ==> n < next
    }

    /** The recursive walk: `seen` is shared by the whole call. */
    method FreezeValue(v: Value, seen: set<nat>) returns (all: set<nat>)
      requires Linked(nodes) && Points(nodes, v) && seen <= nodes.Keys
      modifies this`frozen
      ensures seen <= all <= nodes.Keys
      ensures frozen == old(frozen) + (all - seen)
      ensures v.Ref? ==> v.id in all
      ensures ClosedOver(nodes, all - seen, all)
      ensures forall m :: m in all - seen ==> v.Ref? && Reaches(nodes, v.id, m)
      decreases nodes.Keys - seen
    {
      hide Reaches;
      if !v.Ref? { return seen; }
      var n := v.id;
      if n in seen { return seen; }
      all := seen + {n};
      frozen := frozen + {n};
      ReachesSelf(nodes, n);
      var fields := nodes[n].fields;
      for i := 0 to |fields|
        invariant seen + {n} <= all <= nodes.Keys
        invariant frozen == old(frozen) + (all - seen)
        invariant forall j :: 0 <= j < i && fields[j].value.Ref? ==> fields[j].value.id in all
        invariant ClosedOver(nodes, all - seen - {n}, all)
        invariant forall m :: m in all - seen ==> Reaches(nodes, n, m)
      {
        var before := all;
        assert Points(nodes, fields[i].value) by { assert FieldsPoint(nodes, nodes[n].fields); }
        all := FreezeValue(fields[i].value, before);
        forall m | m in all - before ensures Reaches(nodes, n, m) {
          assert HasChild(nodes, n, fields[i].value.id);
          ReachesThrough(nodes, n, fields[i].value.id, m);
        }
      }
    }

    /** Every object reachable from v ends frozen, through sharing and cycles, and nothing else changes. */
    method DeepFreeze(v: Value)
      requires Linked(nodes) && Points(nodes, v)
      modifies this`frozen
      ensures forall m :: m in frozen <==> m in old(frozen) || (v.Ref? && Reaches(nodes, v.id, m))
    {
      var all := FreezeValue(v, {});
      forall m | v.Ref? && Reaches(nodes, v.id, m) ensures m in all {
        ClosedHoldsReachable(nodes, all, v.id, m);
      }
    }

    function Now(): Space
      reads this
    {
      Space(nodes, frozen, next)
    }

    /** A new object, frozen at once. */
    method Allocate(node: Node) returns (id: nat)
      requires Valid() && FieldsPoint(nodes, node.fields)
      modifies this
      ensures Valid() && Grew(old(Now()), Now())
      ensures id == old(next) && next == id + 1 && nodes == old(nodes)[id := node]
    {
      id := next;
      StillLinked(nodes, id, node);
      nodes := nodes[id := node];
      next := id + 1;
      frozen := frozen + {id};
      assert Interval(id, id + 1) == {id};
    }

    /** The recursive clone of a value of the graph h, which the heap still contains. */
    method CloneInto(ghost h: Heap, v: Value, path: set<nat>) returns (r: Result<Value, CloneError>)
      requires Valid() && Linked(h) && Extends(h, nodes) && Points(h, v)
      modifies this
      ensures Valid() && Grew(old(Now()), Now()) && Extends(h, nodes)
      ensures CloneValue(h, v, path).Err? ==> r == Err(CloneValue(h, v, path).error)
      ensures CloneValue(h, v, path).Ok? ==>
                var t := CloneValue(h, v, path).value;
                r.Ok? && next == old(next) + Size(t) && Laid(nodes, r.value, t, old(next))
      decreases h.Keys - path, 0, 0
    {
      hide Grew;
      hide Linked;
      ghost var start := Now();
      GrewNone(start);
      match v {
        case Forbidden => return Err(NotSerializable);
        case Prim(p) => return Ok(v);
        case Ref(n) =>
          if n in path { return Err(Circular); }
          var node := nodes[n];
          assert node == h[n];
          NodePoints(h, n);
          if node.kind == InstanceNode { return Err(ClassInstance); }
          var fields := CloneFieldsInto(h, node.fields, path + {n});
          if fields.Err? { return Err(fields.error); }
          ghost var mid := Now();
          ghost var ts := CloneFields(h, node.fields, path + {n}).value;
          LaidAllPoints(nodes, fields.value, ts, start.next);
          var id := Allocate(Node(node.kind, fields.value));
          GrewOn(start, mid, Now());
          GrewExtends(mid, Now());
          LaidAllGrows(mid.nodes, nodes, fields.value, ts, start.next);
          return Ok(Ref(id));
      }
    }

    method CloneFieldsInto(ghost h: Heap, fields: seq<Field>, path: set<nat>) returns (r: Result<seq<Field>, CloneError>)
      requires Valid() && Linked(h) && Extends(h, nodes) && FieldsPoint(h, fields)
      modifies this
      ensures Valid() && Grew(old(Now()), Now()) && Extends(h, nodes)
      ensures CloneFields(h, fields, path).Err? ==> r == Err(CloneFields(h, fields, path).error)
      ensures CloneFields(h, fields, path).Ok? ==>
                var ts := CloneFields(h, fields, path).value;
                && r.Ok? && next == old(next) + SizeAll(ts) && Keys(r.value) == Keys(fields)
                && LaidAll(nodes, r.value, ts, old(next))
      decreases h.Keys - path, 1, |fields|
    {
      hide Grew;
      hide Linked;
      hide Keys;
      hide CloneValue;
      ghost var start := Now();
      GrewNone(start);
      if fields == [] { return Ok([]); }
      var first := CloneInto(h, fields[0].value, path);
      if first.Err? { return Err(first.error); }
      ghost var mid := Now();
      var rest := CloneFieldsInto(h, fields[1..], path);
      GrewOn(start, mid, Now());
      if rest.Err? { return Err(rest.error); }
      GrewExtends(mid, Now());
      ghost var t := CloneValue(h, fields[0].value, path).value;
      ghost var ts := CloneFields(h, fields[1..], path).value;
      LaidGrows(mid.nodes, nodes, first.value, t, start.next);
      r := Ok([Field(fields[0].key, first.value)] + rest.value);
      LaidCons(nodes, r.value, rest.value, t, ts, start.next);
      assert CloneFields(h, fields, path).value == [t] + ts;
      assert r.value[1..] == rest.value;
      FirstKeys(fields, r.value);
    }
  }

  lemma LaidCons(h: Heap, fields: seq<Field>, rest: seq<Field>, t: Tree, ts: seq<Tree>, lo: nat)
    requires fields != [] && fields[1..] == rest && Laid(h, fields[0].value, t, lo) && LaidAll(h, rest, ts, lo + Size(t))
    ensures LaidAll(h, fields, [t] + ts, lo) && SizeAll([t] + ts) == Size(t) + SizeAll(ts)
  {
    assert ([t] + ts)[1..] == ts;
  }

  lemma NodePoints(h: Heap, n: nat)
    requires Linked(h) && n in h
    ensures FieldsPoint(h, h[n].fields)
  {
  }

  lemma GrewExtends(a: Space, b: Space)
    requires Grew(a, b)
    ensures Extends(a.nodes, b.nodes)
  {
  }

  lemma StillLinked(h: Heap, id: nat, node: Node)
    requires Linked(h) && id !in h && FieldsPoint(h, node.fields)
    ensures Linked(h[id := node])
  {
  }

  lemma FirstKeys(a: seq<Field>, b: seq<Field>)
    requires a != [] && b != [] && a[0].key == b[0].key && Keys(a[1..]) == Keys(b[1..])
    ensures Keys(a) == Keys(b)
  {
    assert Keys(a) == [a[0].key] + Keys(a[1..]);
    assert Keys(b) == [b[0].key] + Keys(b[1..]);
  }
}
