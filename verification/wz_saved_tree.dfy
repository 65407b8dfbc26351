/** What the reader finds after `PropertyList` of `Tools/PKG1/WZSerializer.cs` has put a tree in order. */
module WzSavedTrees {
  import opened Bytes
  import opened WzPrimitives
  import opened WzTree
  import opened WzOrder
  import opened WzSurvival

  /** Every string and number of the tree is one the format can hold, and no byte is among them; null
      children are allowed. */
  predicate StorableValue(v: Value)
    decreases v
  {
    match v
    case Text(s) => Storable(s)
    case Uol(s) => Storable(s)
    case Single(bits) => !NegativeWhole(bits)
    case Sub(children) => StorableNodes(children)
    case _ => !IsByte(v)
  }

  predicate StorableNodes(ns: seq<Node>)
    decreases ns
  {
    forall i :: 0 <= i < |ns| && ns[i].Node? ==> Storable(ns[i].name) && StorableValue(ns[i].value)
  }

  lemma {:induction false} StorableIsPlain(ns: seq<Node>, order: Order)
    requires ValidNodes(ns) && StorableNodes(ns)
    ensures PlainNodes(Saved(ns, order))
    decreases ns, 1
  {
    if ns != [] {
      ValidRest(ns);
      assert forall i :: 0 <= i < |ns[1..]| ==> ns[1..][i] == ns[i + 1];
      StorableIsPlain(ns[1..], order);
      if ns[0].Node? {
        StorableValueIsPlain(ns[0].value, order);
        InsertKeepsPlain(SavedNode(ns[0], order), Saved(ns[1..], order), order);
      }
    }
  }

  lemma {:induction false} StorableValueIsPlain(v: Value, order: Order)
    requires ValidValue(v) && StorableValue(v)
    ensures PlainValue(SavedValue(v, order))
    decreases v, 0
  {
    if v.Sub? { StorableIsPlain(v.children, order); }
  }

  lemma {:induction false} InsertKeepsPlain(n: Node, ns: seq<Node>, order: Order)
    requires n.Node? && Storable(n.name) && PlainValue(n.value) && PlainNodes(ns) && AllPresent(ns)
    ensures PlainNodes(Insert(n, ns, order))
  {
    if ns != [] && !order(n.name, ns[0].name) {
      assert forall i :: 0 <= i < |ns[1..]| ==> ns[1..][i] == ns[i + 1];
      InsertKeepsPlain(n, ns[1..], order);
    }
  }

  lemma {:induction false} NamesStay(ns: seq<Node>, order: Order)
    requires ValidNodes(ns) && NamesNonEmpty(ns)
    ensures NamesNonEmpty(Saved(ns, order))
    decreases ns
  {
    if ns != [] {
      ValidRest(ns);
      assert forall i :: 0 <= i < |ns[1..]| ==> ns[1..][i] == ns[i + 1];
      NamesStay(ns[1..], order);
      if ns[0].Node? {
        assert ns[0].name != [];
        if ns[0].value.Sub? {
          NamesStay(ns[0].value.children, order);
          assert SavedValue(ns[0].value, order) == Sub(Saved(ns[0].value.children, order));
        }
        InsertKeepsNames(SavedNode(ns[0], order), Saved(ns[1..], order), order);
      }
    }
  }

  lemma {:induction false} InsertKeepsNames(n: Node, ns: seq<Node>, order: Order)
    requires n.Node? && n.name != [] && (n.value.Sub? ==> NamesNonEmpty(n.value.children)) && NamesNonEmpty(ns) && AllPresent(ns)
    ensures NamesNonEmpty(Insert(n, ns, order))
  {
    if ns != [] && !order(n.name, ns[0].name) {
      assert forall i :: 0 <= i < |ns[1..]| ==> ns[1..][i] == ns[i + 1];
      InsertKeepsNames(n, ns[1..], order);
    }
  }

  /** Whatever tree with storable values and nonempty names is saved, in whatever order of names,
      between whatever bytes: the reader finds that tree, each list without its null children and in
      the order it was written. */
  lemma SavedTreeReadsBack(before: seq<byte>, ns: seq<Node>, order: Order, after: seq<byte>)
    requires ValidNodes(ns) && StorableNodes(ns) && NamesNonEmpty(ns)
    requires |before + WriteImage(Saved(ns, order)) + after| < TWO32
    ensures Gives(ReadImage(before + WriteImage(Saved(ns, order)) + after, |before|), Saved(ns, order))
  {
    StorableIsPlain(ns, order);
    NamesStay(ns, order);
    hide *;
    NamedImageRoundTrip(before, Saved(ns, order), after);
  }

  /** A list loses nothing but its null children by being saved, and gains nothing. */
  lemma {:induction false} SavedIsPermutation(ns: seq<Node>, order: Order, n: Node)
    requires ValidNodes(ns)
    ensures multiset(Saved(ns, order))[n] == Occurrences(ns, order, n)
  {
    if ns != [] {
      ValidRest(ns);
      SavedIsPermutation(ns[1..], order, n);
    }
  }

  /** How many children become `n` by being saved. */
  function Occurrences(ns: seq<Node>, order: Order, n: Node): nat
    requires ValidNodes(ns)
  {
    if ns == [] then 0
    else
      ValidRest(ns);
      (if ns[0].Node? && SavedNode(ns[0], order) == n then 1 else 0) + Occurrences(ns[1..], order, n)
  }
}
