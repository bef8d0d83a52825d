/**
  The sidebar tree and the walk that collects document ids from it
  (`collectDocIdsFromItems`, written identically in both scripts).

  The walk adds ids to a JavaScript `Set`, whose iteration order is insertion
  order; the model keeps that order by representing the set as a sequence
  without duplicates. `DocIds` is the plain set view.
 */
module Sidebar {
  import opened Wrappers

  /** A category's `link` object: its `type` and its `id` ("" when absent). */
  datatype Link = Link(linkType: string, id: string)

  /**
    One sidebar item: a bare string; a `category` with an optional link and its
    nested items (a missing `items` array behaves as an empty one); a `doc`
    object; any other object, of which only `id` is read ("" when absent); or a
    value that is neither a string nor an object (null, a number), which is ignored.
   */
  datatype Item =
    | Bare(name: string)
    | Category(link: Option<Link>, items: seq<Item>)
    | Doc(id: string)
    | IdObject(id: string)
    | NotAnObject

  /** The top level of the `docs` sidebar: category labels with their items, in `Object.entries` order. */
  type SidebarConfig = seq<(string, seq<Item>)>

  /**
    The id an item contributes by itself, not counting its children: a bare
    string always; a category its `link.id` when the link is of type `doc` and
    the id is non-empty; any other object its non-empty `id`.
   */
  function OwnId(it: Item): Option<string> {
    match it
    case Bare(name) => Some(name)
    case Category(link, _) =>
      if link.Some? && link.value.linkType == "doc" && link.value.id != "" then Some(link.value.id) else None
    case Doc(id) => if id != "" then Some(id) else None
    case IdObject(id) => if id != "" then Some(id) else None
    case NotAnObject => None
  }

  /** The ids of a list of items, as a set. */
  function DocIds(items: seq<Item>): set<string>
    decreases items, 1
  {
    if items == [] then {} else ItemIds(items[0]) + DocIds(items[1..])
  }

  function ItemIds(it: Item): set<string>
    decreases it, 0
  {
    (if OwnId(it).Some? then {OwnId(it).value} else {})
    + (if it.Category? then DocIds(it.items) else {})
  }

  // ---------------------------------------------------------------------------
  // An independent description: the nodes of the tree, flattened in preorder
  // ---------------------------------------------------------------------------

  /** Every item of the tree at any depth, in preorder. */
  function Nodes(items: seq<Item>): seq<Item>
    decreases items, 1
  {
    if items == [] then [] else ItemNodes(items[0]) + Nodes(items[1..])
  }

  function ItemNodes(it: Item): seq<Item>
    decreases it, 0
  {
    [it] + (if it.Category? then Nodes(it.items) else [])
  }

  /** The own ids of a list of nodes. */
  function OwnIds(ns: seq<Item>): set<string> {
    set i | 0 <= i < |ns| && OwnId(ns[i]).Some? :: OwnId(ns[i]).value
  }

  /** How many of the nodes contribute an id by themselves. */
  function Contributors(ns: seq<Item>): nat {
    if ns == [] then 0 else (if OwnId(ns[0]).Some? then 1 else 0) + Contributors(ns[1..])
  }

  lemma OwnIdsSingleton(n: Item)
    ensures OwnIds([n]) == (if OwnId(n).Some? then {OwnId(n).value} else {})
  {
    if OwnId(n).Some? {
      assert [n][0] == n;
      assert OwnId(n).value in OwnIds([n]);
    }
  }

  lemma OwnIdsAppend(a: seq<Item>, b: seq<Item>)
    ensures OwnIds(a + b) == OwnIds(a) + OwnIds(b)
  {
    var ab := a + b;
    forall x | x in OwnIds(ab) ensures x in OwnIds(a) + OwnIds(b) {
      var i :| 0 <= i < |ab| && OwnId(ab[i]).Some? && OwnId(ab[i]).value == x;
      if i < |a| {
        assert ab[i] == a[i];
      } else {
        assert ab[i] == b[i - |a|];
      }
    }
    forall x | x in OwnIds(a) + OwnIds(b) ensures x in OwnIds(ab) {
      if x in OwnIds(a) {
        var i :| 0 <= i < |a| && OwnId(a[i]).Some? && OwnId(a[i]).value == x;
        assert ab[i] == a[i];
      } else {
        var i :| 0 <= i < |b| && OwnId(b[i]).Some? && OwnId(b[i]).value == x;
        assert ab[|a| + i] == b[i];
      }
    }
  }

  /**
    The collected ids are exactly the own ids of the nodes at any depth: every
    bare string, every non-empty `doc`/object id and every non-empty category
    link id of type `doc`, wherever it sits in the tree, and nothing else.
   */
  lemma {:induction false} DocIdsAreOwnIdsOfNodes(items: seq<Item>)
    ensures DocIds(items) == OwnIds(Nodes(items))
    decreases items, 1
  {
    if items != [] {
      ItemIdsAreOwnIdsOfNodes(items[0]);
      DocIdsAreOwnIdsOfNodes(items[1..]);
      OwnIdsAppend(ItemNodes(items[0]), Nodes(items[1..]));
    }
  }

  lemma {:induction false} ItemIdsAreOwnIdsOfNodes(it: Item)
    ensures ItemIds(it) == OwnIds(ItemNodes(it))
    decreases it, 0
  {
    var children := if it.Category? then Nodes(it.items) else [];
    OwnIdsAppend([it], children);
    OwnIdsSingleton(it);
    if it.Category? {
      DocIdsAreOwnIdsOfNodes(it.items);
    }
  }

  /** No more ids are collected than there are contributing nodes: shared ids collapse. */
  lemma {:induction false} OwnIdsBound(ns: seq<Item>)
    ensures |OwnIds(ns)| <= Contributors(ns)
    decreases |ns|
  {
    if ns != [] {
      OwnIdsBound(ns[1..]);
      OwnIdsAppend([ns[0]], ns[1..]);
      assert [ns[0]] + ns[1..] == ns;
      OwnIdsSingleton(ns[0]);
    }
  }

  /** The size bound on a whole tree. */
  lemma DocIdsBound(items: seq<Item>)
    ensures |DocIds(items)| <= Contributors(Nodes(items))
  {
    DocIdsAreOwnIdsOfNodes(items);
    OwnIdsBound(Nodes(items));
  }

  // ---------------------------------------------------------------------------
  // The insertion-ordered accumulator
  // ---------------------------------------------------------------------------

  predicate NoDups(s: seq<string>) {
    forall i, j :: 0 <= i < j < |s| ==> s[i] != s[j]
  }

  function Elems(s: seq<string>): set<string> {
    set x | x in s
  }

  /** A duplicate-free sequence has as many elements as its set. */
  lemma {:induction false} NoDupsCard(s: seq<string>)
    requires NoDups(s)
    ensures |Elems(s)| == |s|
    decreases |s|
  {
    if s != [] {
      var last := s[|s| - 1];
      var init := s[..|s| - 1];
      NoDupsCard(init);
      assert Elems(s) == Elems(init) + {last};
      assert last !in Elems(init);
    }
  }

  /** `acc.add(id)` on an insertion-ordered set. */
  function Add(acc: seq<string>, id: string): seq<string> {
    if id in acc then acc else acc + [id]
  }

  /** The accumulator after the walk over `items`, starting from `acc`. */
  function Collected(acc: seq<string>, items: seq<Item>): seq<string>
    decreases items, 1
  {
    if items == [] then acc else Collected(CollectedItem(acc, items[0]), items[1..])
  }

  function CollectedItem(acc: seq<string>, it: Item): seq<string>
    decreases it, 0
  {
    var acc' := if OwnId(it).Some? then Add(acc, OwnId(it).value) else acc;
    if it.Category? then Collected(acc', it.items) else acc'
  }

  lemma AddProps(acc: seq<string>, id: string)
    ensures var r := Add(acc, id);
      |acc| <= |r| && r[..|acc|] == acc && (NoDups(acc) ==> NoDups(r)) && Elems(r) == Elems(acc) + {id}
  {
  }

  /**
    The walk only appends, never duplicates, and ends holding exactly the ids it
    started with plus the ids of the tree.
   */
  lemma {:induction false} CollectedProps(acc: seq<string>, items: seq<Item>)
    ensures var r := Collected(acc, items);
      |acc| <= |r| && r[..|acc|] == acc && (NoDups(acc) ==> NoDups(r))
      && Elems(r) == Elems(acc) + DocIds(items)
    decreases items, 1
  {
    if items != [] {
      var acc1 := CollectedItem(acc, items[0]);
      CollectedItemProps(acc, items[0]);
      CollectedProps(acc1, items[1..]);
      var r := Collected(acc1, items[1..]);
      assert r[..|acc1|] == acc1;
      assert r[..|acc|] == acc1[..|acc|];
    }
  }

  lemma {:induction false} CollectedItemProps(acc: seq<string>, it: Item)
    ensures var r := CollectedItem(acc, it);
      |acc| <= |r| && r[..|acc|] == acc && (NoDups(acc) ==> NoDups(r))
      && Elems(r) == Elems(acc) + ItemIds(it)
    decreases it, 0
  {
    var acc' := if OwnId(it).Some? then Add(acc, OwnId(it).value) else acc;
    if OwnId(it).Some? {
      AddProps(acc, OwnId(it).value);
    }
    if it.Category? {
      CollectedProps(acc', it.items);
      var r := Collected(acc', it.items);
      assert r[..|acc'|] == acc';
      assert r[..|acc|] == acc'[..|acc|];
    }
  }

  /**
    `collectDocIdsFromItems(items, acc)`: walks the items in order, adding each
    item's own id and recursing into categories, on an insertion-ordered set.
   */
  method CollectDocIdsFromItems(items: seq<Item>, acc: seq<string>) returns (r: seq<string>)
    ensures r == Collected(acc, items)
    ensures |acc| <= |r| && r[..|acc|] == acc
    ensures NoDups(acc) ==> NoDups(r)
    ensures Elems(r) == Elems(acc) + DocIds(items)
    decreases items
  {
    r := acc;
    var i := 0;
    while i < |items|
      invariant 0 <= i <= |items|
      invariant Collected(r, items[i..]) == Collected(acc, items)
    {
      var it := items[i];
      assert items[i..][0] == it && items[i..][1..] == items[i + 1..];
      match it {
        case Bare(name) =>
          if name !in r { r := r + [name]; }
        case Category(link, children) =>
          if link.Some? && link.value.linkType == "doc" && link.value.id != "" {
            if link.value.id !in r { r := r + [link.value.id]; }
          }
          r := CollectDocIdsFromItems(children, r);
        case Doc(id) =>
          if id != "" && id !in r { r := r + [id]; }
        case IdObject(id) =>
          if id != "" && id !in r { r := r + [id]; }
        case NotAnObject =>
      }
      i := i + 1;
    }
    assert items[i..] == [];
    CollectedProps(acc, items);
  }

  /** The union over every top-level category of the ids of its items, in order. */
  function SidebarIds(sidebar: SidebarConfig): seq<string> {
    if sidebar == [] then [] else Collected(SidebarIds(sidebar[..|sidebar| - 1]), sidebar[|sidebar| - 1].1)
  }

  /** The ids of every category, as one set. */
  function AllDocIds(sidebar: SidebarConfig): set<string> {
    if sidebar == [] then {} else AllDocIds(sidebar[..|sidebar| - 1]) + DocIds(sidebar[|sidebar| - 1].1)
  }

  lemma {:induction false} SidebarIdsProps(sidebar: SidebarConfig)
    ensures NoDups(SidebarIds(sidebar))
    ensures Elems(SidebarIds(sidebar)) == AllDocIds(sidebar)
    decreases |sidebar|
  {
    if sidebar != [] {
      SidebarIdsProps(sidebar[..|sidebar| - 1]);
      CollectedProps(SidebarIds(sidebar[..|sidebar| - 1]), sidebar[|sidebar| - 1].1);
    }
  }

  /**
    The collection loop of the per-page script's `main`: one shared set filled
    from every top-level category in turn. The result holds each id of every
    category exactly once.
   */
  method CollectAllDocIds(sidebar: SidebarConfig) returns (ids: seq<string>)
    ensures ids == SidebarIds(sidebar)
    ensures NoDups(ids)
    ensures Elems(ids) == AllDocIds(sidebar)
  {
    ids := [];
    for k := 0 to |sidebar|
      invariant ids == SidebarIds(sidebar[..k])
    {
      assert sidebar[..k + 1][..k] == sidebar[..k];
      ids := CollectDocIdsFromItems(sidebar[k].1, ids);
    }
    assert sidebar[..|sidebar|] == sidebar;
    SidebarIdsProps(sidebar);
  }
}
