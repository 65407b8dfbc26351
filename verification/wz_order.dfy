/** The order in which `PropertyList` of `Tools/PKG1/WZSerializer.cs` writes children: null ones left
    out, the others by name.  How two names compare is up to the runtime, so it is a parameter. */
module WzOrder {
  import opened WzPrimitives
  import opened WzTree

  /** Whether the first name may stand in front of the second. */
  type Order = (WString, WString) -> bool

  /** In front of the first element that may follow it. */
  function Insert(n: Node, ns: seq<Node>, order: Order): (r: seq<Node>)
    requires n.Node? && AllPresent(ns)
    ensures AllPresent(r) && |r| == |ns| + 1 && multiset(r) == multiset(ns) + multiset{n}
  {
    if ns == [] || order(n.name, ns[0].name) then [n] + ns
    else
      assert ns == [ns[0]] + ns[1..];
      [ns[0]] + Insert(n, ns[1..], order)
  }

  /** `Where(c => c != null).OrderBy(c => c.Name)`, which is stable. */
  function Ordered(ns: seq<Node>, order: Order): (r: seq<Node>)
    ensures AllPresent(r) && |r| == CountPresent(ns)
  {
    if ns == [] then []
    else if ns[0].Missing? then Ordered(ns[1..], order)
    else Insert(ns[0], Ordered(ns[1..], order), order)
  }

  lemma {:induction false} OrderedHolds(ns: seq<Node>, order: Order, n: Node)
    ensures n in Ordered(ns, order) <==> n in ns && n.Node?
  {
    if ns != [] {
      OrderedHolds(ns[1..], order, n);
      assert n in ns <==> n == ns[0] || n in ns[1..];
      if ns[0].Node? {
        assert n in Ordered(ns, order) <==> n in multiset(Ordered(ns, order));
      }
    }
  }

  /** Names in ascending order. */
  predicate Ascending(ns: seq<Node>, order: Order)
    requires AllPresent(ns)
  {
    forall i, j :: 0 <= i < j < |ns| ==> order(ns[i].name, ns[j].name)
  }

  ghost predicate TotalPreorder(order: Order) {
    && (forall a, b :: order(a, b) || order(b, a))
    && (forall a, b, c :: order(a, b) && order(b, c) ==> order(a, c))
  }

  lemma {:induction false} InsertKeepsAscending(n: Node, ns: seq<Node>, order: Order)
    requires TotalPreorder(order) && n.Node? && AllPresent(ns) && Ascending(ns, order)
    ensures Ascending(Insert(n, ns, order), order)
  {
    if ns == [] || order(n.name, ns[0].name) {
      forall j | 0 <= j < |ns| ensures order(n.name, ns[j].name) {
        if j > 0 { assert order(ns[0].name, ns[j].name); }
      }
    } else {
      var tail := ns[1..];
      InsertKeepsAscending(n, tail, order);
      var rest := Insert(n, tail, order);
      forall k | 0 <= k < |rest| ensures order(ns[0].name, rest[k].name) {
        assert rest[k] in multiset(rest);
        if rest[k] != n {
          assert rest[k] in tail;
          var l :| 0 <= l < |tail| && tail[l] == rest[k];
          assert ns[l + 1] == rest[k];
        }
      }
    }
  }

  lemma {:induction false} OrderedIsAscending(ns: seq<Node>, order: Order)
    requires TotalPreorder(order)
    ensures Ascending(Ordered(ns, order), order)
  {
    if ns != [] {
      OrderedIsAscending(ns[1..], order);
      if ns[0].Node? { InsertKeepsAscending(ns[0], Ordered(ns[1..], order), order); }
    }
  }

  predicate Tied(a: WString, b: WString, order: Order) {
    order(a, b) && order(b, a)
  }

  /** The children whose names compare as equal to a given one, in the order they have. */
  function TiedWith(ns: seq<Node>, name: WString, order: Order): seq<Node> {
    if ns == [] then []
    else (if ns[0].Node? && Tied(ns[0].name, name, order) then [ns[0]] else []) + TiedWith(ns[1..], name, order)
  }

  lemma {:induction false} InsertIsStable(n: Node, ns: seq<Node>, name: WString, order: Order)
    requires TotalPreorder(order) && n.Node? && AllPresent(ns)
    ensures TiedWith(Insert(n, ns, order), name, order) == (if Tied(n.name, name, order) then [n] else []) + TiedWith(ns, name, order)
  {
    if ns == [] || order(n.name, ns[0].name) {
      assert ([n] + ns)[1..] == ns;
    } else {
      var rest := Insert(n, ns[1..], order);
      assert ([ns[0]] + rest)[1..] == rest;
      InsertIsStable(n, ns[1..], name, order);
      assert Tied(n.name, name, order) ==> !Tied(ns[0].name, name, order);
    }
  }

  /** Children with equal names keep their order. */
  lemma {:induction false} OrderedIsStable(ns: seq<Node>, name: WString, order: Order)
    requires TotalPreorder(order)
    ensures TiedWith(Ordered(ns, order), name, order) == TiedWith(ns, name, order)
  {
    if ns != [] {
      OrderedIsStable(ns[1..], name, order);
      if ns[0].Node? { InsertIsStable(ns[0], Ordered(ns[1..], order), name, order); }
    }
  }

  // ---------------------------------------------------------------- whole trees

  /** A tree as it is written: ordered at every level. */
  function Saved(ns: seq<Node>, order: Order): (r: seq<Node>)
    requires ValidNodes(ns)
    ensures ValidNodes(r) && AllPresent(r) && |r| == CountPresent(ns)
    decreases ns, 1
  {
    if ns == [] then []
    else
      ValidRest(ns);
      if ns[0].Missing? then Saved(ns[1..], order)
      else
        ValidInsert(SavedNode(ns[0], order), Saved(ns[1..], order), order);
        Insert(SavedNode(ns[0], order), Saved(ns[1..], order), order)
  }

  function SavedNode(n: Node, order: Order): (r: Node)
    requires n.Node? && |n.name| <= MAX_LENGTH && ValidValue(n.value)
    ensures r.Node? && r.name == n.name && ValidValue(r.value)
    decreases n, 0
  {
    Node(n.name, SavedValue(n.value, order))
  }

  function SavedValue(v: Value, order: Order): (r: Value)
    requires ValidValue(v)
    ensures ValidValue(r) && (Extended(r) <==> Extended(v)) && (!v.Sub? ==> r == v)
    decreases v, 2
  {
    match v
    case Sub(children) => Sub(Saved(children, order))
    case _ => v
  }

  lemma ValidRest(ns: seq<Node>)
    requires ns != [] && ValidNodes(ns)
    ensures ValidNodes(ns[1..]) && CountPresent(ns[1..]) < TWO31 - 1
    ensures ns[0].Node? ==> |ns[0].name| <= MAX_LENGTH && ValidValue(ns[0].value)
  {}

  lemma {:induction false} ValidInsert(n: Node, ns: seq<Node>, order: Order)
    requires n.Node? && |n.name| <= MAX_LENGTH && ValidValue(n.value) && ValidNodes(ns) && AllPresent(ns) && |ns| < TWO31 - 1
    ensures ValidNodes(Insert(n, ns, order))
  {
    if ns != [] && !order(n.name, ns[0].name) { ValidInsert(n, ns[1..], order); }
  }

  /** Saving the elements one by one, as the writer's loop does. */
  function EachSaved(ns: seq<Node>, order: Order): (r: seq<Node>)
    requires ValidNodes(ns) && AllPresent(ns)
    ensures AllPresent(r) && |r| == |ns|
  {
    if ns == [] then []
    else
      ValidRest(ns);
      [SavedNode(ns[0], order)] + EachSaved(ns[1..], order)
  }

  lemma {:induction false} ValidOrdered(ns: seq<Node>, order: Order)
    requires ValidNodes(ns)
    ensures ValidNodes(Ordered(ns, order))
  {
    if ns != [] {
      ValidRest(ns);
      ValidOrdered(ns[1..], order);
      if ns[0].Node? { ValidInsert(ns[0], Ordered(ns[1..], order), order); }
    }
  }

  lemma {:induction false} InsertSaved(n: Node, ns: seq<Node>, order: Order)
    requires n.Node? && |n.name| <= MAX_LENGTH && ValidValue(n.value) && ValidNodes(ns) && AllPresent(ns) && |ns| < TWO31 - 1
    ensures ValidNodes(Insert(n, ns, order))
    ensures EachSaved(Insert(n, ns, order), order) == Insert(SavedNode(n, order), EachSaved(ns, order), order)
  {
    ValidInsert(n, ns, order);
    hide ValidValue, SavedValue, Insert;
    if ns == [] || order(n.name, ns[0].name) {
      assert ([n] + ns)[1..] == ns;
    } else {
      var rest := Insert(n, ns[1..], order);
      InsertSaved(n, ns[1..], order);
      assert ([ns[0]] + rest)[1..] == rest;
    }
  }

  /** Ordering first and saving each child then gives the tree as saved: names do not change. */
  lemma {:induction false} SavedIsOrdered(ns: seq<Node>, order: Order)
    requires ValidNodes(ns)
    ensures ValidNodes(Ordered(ns, order)) && Saved(ns, order) == EachSaved(Ordered(ns, order), order)
  {
    ValidOrdered(ns, order);
    if ns != [] {
      ValidRest(ns);
      SavedIsOrdered(ns[1..], order);
      if ns[0].Node? { InsertSaved(ns[0], Ordered(ns[1..], order), order); }
    }
  }

  lemma {:induction false} EachSavedAt(ns: seq<Node>, order: Order, i: nat)
    requires ValidNodes(ns) && AllPresent(ns) && i < |ns|
    ensures |ns[i].name| <= MAX_LENGTH && ValidValue(ns[i].value)
    ensures EachSaved(ns, order)[i] == SavedNode(ns[i], order)
  {
    ValidRest(ns);
    if i > 0 { EachSavedAt(ns[1..], order, i - 1); }
  }
}
