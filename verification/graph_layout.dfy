/** The node graph of art/GraphLayout.js: a dictionary from numeric keys to
    node records, built by makeGraph, completed by the setup loops (string
    ids, empty parent lists, back-links from children to parents) and laid
    out by graphLayout. A JavaScript reference to a node is modelled by the
    node's key: every node object lives under exactly one key. */
module GraphLayout {
  import opened Wrappers
  import Util

  // ---------------------------------------------------------------------------
  // Decimal keys: `for (const nodeId in graph)` sees keys as strings
  // ---------------------------------------------------------------------------

  function DigitChar(d: nat): (c: char)
    requires d < 10
    ensures '0' <= c <= '9' && DigitValue(c) == d
  {
    ('0' as int + d) as char
  }

  function DigitValue(c: char): nat
  {
    if '0' <= c <= '9' then (c as int - '0' as int) as nat else 0
  }

  /** The string JavaScript uses for a non-negative integer key. */
  function NatToString(n: nat): (s: string)
    ensures |s| >= 1
    decreases n
  {
    if n < 10 then [DigitChar(n)] else NatToString(n / 10) + [DigitChar(n % 10)]
  }

  /** The number a string of decimal digits denotes. */
  function ParseDecimal(s: string): nat
  {
    if s == [] then 0 else 10 * ParseDecimal(s[..|s| - 1]) + DigitValue(s[|s| - 1])
  }

  /** Reading a key's string back gives the key. */
  lemma {:induction false} ParseNatToString(n: nat)
    ensures ParseDecimal(NatToString(n)) == n
    decreases n
  {
    var s := NatToString(n);
    if n < 10 {
      assert s[..|s| - 1] == [];
    } else {
      var prefix := NatToString(n / 10);
      ParseNatToString(n / 10);
      assert s == prefix + [DigitChar(n % 10)];
      assert s[..|s| - 1] == prefix;
    }
  }

  /** Distinct keys give distinct id strings. */
  lemma NatToStringInjective(a: nat, b: nat)
    ensures NatToString(a) == NatToString(b) <==> a == b
  {
    ParseNatToString(a);
    ParseNatToString(b);
  }

  // ---------------------------------------------------------------------------
  // Data model
  // ---------------------------------------------------------------------------

  const NodeRadius: real := 20.0

  /** The layout parameters the draggable points edit. */
  datatype LayoutData = LayoutData(
    rootX: real,
    rootY: real,
    shiftX_GroupGroup: real,
    shiftX_StackGroup: real,
    shiftY_StackGroup: real,
    shiftY_StackStack: real)

  /** `initialData` (GraphLayout.js:25-32). */
  const InitialData: LayoutData :=
    LayoutData(0.0, 0.0, 2.0 * NodeRadius, 2.0 * NodeRadius, 4.0 * NodeRadius, 3.0 * NodeRadius)

  /** The names of the layout parameters, as getAffects reports them. */
  const FieldNames: seq<string> :=
    ["rootX", "rootY", "shiftX_GroupGroup", "shiftX_StackGroup", "shiftY_StackGroup", "shiftY_StackStack"]

  datatype Point = Point(x: real, y: real)

  /** A node record. Fields the source adds later start out as None
      (undefined); `children` and `parents` hold the keys of the nodes the
      JavaScript arrays refer to. */
  datatype Node = Node(
    kind: string,
    children: Option<seq<nat>>,
    id: Option<string>,
    parents: Option<seq<nat>>,
    position: Option<Point>,
    groupIndex: Option<nat>,
    stackIndex: Option<nat>)

  const StackKind: string := "stack"
  const GroupKind: string := "group"

  /** `{ type: 'stack' }` */
  function StackNode(): Node
  {
    Node(StackKind, None, None, None, None, None, None)
  }

  /** `{ type: 'group', children }` */
  function GroupNode(children: seq<nat>): Node
  {
    Node(GroupKind, Some(children), None, None, None, None, None)
  }

  /** A node's children, an absent list read as empty. */
  function ChildrenOf(n: Node): seq<nat>
  {
    if n.children.Some? then n.children.value else []
  }

  /** The shape every graph the source builds has: children are nodes of the
      graph and never groups, and a node is the child of at most one parent,
      at one position. */
  ghost predicate TreeShaped(m: map<nat, Node>)
  {
    (forall p, i :: p in m && 0 <= i < |ChildrenOf(m[p])| ==>
       ChildrenOf(m[p])[i] in m && m[ChildrenOf(m[p])[i]].kind != GroupKind) &&
    (forall p, q, i, j ::
       (p in m && q in m && 0 <= i < |ChildrenOf(m[p])| && 0 <= j < |ChildrenOf(m[q])| &&
        ChildrenOf(m[p])[i] == ChildrenOf(m[q])[j]) ==> p == q && i == j)
  }

  /** Two graphs with the same keys, kinds and children. */
  ghost predicate SameShape(m: map<nat, Node>, m': map<nat, Node>)
  {
    m.Keys == m'.Keys &&
    forall k :: k in m ==> m'[k].kind == m[k].kind && ChildrenOf(m'[k]) == ChildrenOf(m[k])
  }

  lemma SameShapeTree(m: map<nat, Node>, m': map<nat, Node>)
    requires SameShape(m, m') && TreeShaped(m)
    ensures TreeShaped(m')
  {
  }

  /** Consecutive keys from `first`: the children a new group receives. */
  function Consecutive(first: nat, count: nat): (r: seq<nat>)
    ensures |r| == count
    ensures forall i :: 0 <= i < count ==> r[i] == first + i
  {
    seq(count, i requires 0 <= i < count => first + i)
  }

  /** The graph with `count` fresh stacks added at keys first, first + 1, ... */
  function AddStacks(m: map<nat, Node>, first: nat, count: nat): map<nat, Node>
  {
    if count == 0 then m else AddStacks(m, first, count - 1)[first + count - 1 := StackNode()]
  }

  /** Adding a node that has no children under a new key keeps the shape. */
  lemma AddLeafKeepsTree(m: map<nat, Node>, key: nat)
    requires TreeShaped(m) && key !in m
    ensures TreeShaped(m[key := StackNode()])
  {
    var m' := m[key := StackNode()];
    forall p | p in m' ensures ChildrenOf(m'[p]) == if p == key then [] else ChildrenOf(m[p]) {
    }
  }

  /** Adding a group whose children are distinct, childless-so-far stacks that
      no node refers to yet keeps the shape. */
  lemma AddGroupKeepsTree(m: map<nat, Node>, key: nat, children: seq<nat>)
    requires TreeShaped(m) && key !in m
    requires forall i :: 0 <= i < |children| ==> children[i] in m && m[children[i]].kind != GroupKind
    requires forall i, j :: 0 <= i < j < |children| ==> children[i] != children[j]
    requires forall p, i :: p in m && 0 <= i < |ChildrenOf(m[p])| ==> ChildrenOf(m[p])[i] !in children
    ensures TreeShaped(m[key := GroupNode(children)])
  {
    var m' := m[key := GroupNode(children)];
    assert ChildrenOf(m'[key]) == children;
    forall p | p in m' && p != key ensures m'[p] == m[p] && ChildrenOf(m'[p]) == ChildrenOf(m[p]) {
    }
    forall p, i | p in m' && 0 <= i < |ChildrenOf(m'[p])|
      ensures ChildrenOf(m'[p])[i] in m' && m'[ChildrenOf(m'[p])[i]].kind != GroupKind
    {
      var c := ChildrenOf(m'[p])[i];
      assert c in m && c != key && m[c].kind != GroupKind;
    }
    forall p, q, i, j |
      p in m' && q in m' && 0 <= i < |ChildrenOf(m'[p])| && 0 <= j < |ChildrenOf(m'[q])| &&
      ChildrenOf(m'[p])[i] == ChildrenOf(m'[q])[j]
      ensures p == q && i == j
    {
    }
  }

  /** Fresh stacks above every key: the new keys hold stacks, the old keys
      keep their nodes. */
  lemma {:induction false} AddStacksKeys(m: map<nat, Node>, first: nat, count: nat)
    requires forall k :: k in m ==> k < first
    ensures forall k :: k in AddStacks(m, first, count) <==> k in m || first <= k < first + count
    ensures forall k :: k in m ==> AddStacks(m, first, count)[k] == m[k]
    ensures forall k :: first <= k < first + count ==> AddStacks(m, first, count)[k] == StackNode()
  {
    if count > 0 {
      AddStacksKeys(m, first, count - 1);
    }
  }

  /** Fresh stacks above every key keep the shape. */
  lemma {:induction false} AddStacksShape(m: map<nat, Node>, first: nat, count: nat)
    requires TreeShaped(m) && forall k :: k in m ==> k < first
    ensures TreeShaped(AddStacks(m, first, count))
  {
    if count > 0 {
      var prev := AddStacks(m, first, count - 1);
      var key := first + count - 1;
      AddStacksShape(m, first, count - 1);
      AddStacksKeys(m, first, count - 1);
      assert key !in m;
      assert key !in prev;
      AddLeafKeepsTree(prev, key);
      assert AddStacks(m, first, count) == prev[key := StackNode()];
    }
  }

  /** Stacks added above a group's key keep the shape, stay below the
      counter and leave the group's key free. */
  lemma StacksBelowCounter(m: map<nat, Node>, key: nat, count: nat)
    requires TreeShaped(m) && forall k :: k in m ==> k < key
    ensures TreeShaped(AddStacks(m, key + 1, count))
    ensures var added := AddStacks(m, key + 1, count);
      key !in added && forall k :: k in added ==> k < key + 1 + count
  {
    AddStacksShape(m, key + 1, count);
    AddStacksKeys(m, key + 1, count);
  }

  /** newGroup's result keeps the shape: the group's children are its own
      fresh stacks. */
  lemma GroupOverNewStacks(m: map<nat, Node>, key: nat, count: nat)
    requires TreeShaped(m) && forall k :: k in m ==> k < key
    ensures TreeShaped(AddStacks(m, key + 1, count)[key := GroupNode(Consecutive(key + 1, count))])
  {
    var stacked := AddStacks(m, key + 1, count);
    var cs := Consecutive(key + 1, count);
    AddStacksShape(m, key + 1, count);
    AddStacksKeys(m, key + 1, count);
    forall p, i | p in stacked && 0 <= i < |ChildrenOf(stacked[p])| ensures ChildrenOf(stacked[p])[i] !in cs {
      if p in m {
        assert ChildrenOf(stacked[p])[i] in m;
      }
    }
    AddGroupKeepsTree(stacked, key, cs);
  }

  lemma ConsecutiveNext(first: nat, count: nat)
    ensures Consecutive(first, count) + [first + count] == Consecutive(first, count + 1)
  {
  }

  /** What makeGraph builds (GraphLayout.js:14-15): a group at 0 with stacks
      1-3 and a group at 4 with stacks 5-8. */
  function BuiltGraph(): map<nat, Node>
  {
    // listed in the order makeGraph inserts the nodes
    map[1 := StackNode(), 2 := StackNode(), 3 := StackNode(), 0 := GroupNode([1, 2, 3]),
        5 := StackNode(), 6 := StackNode(), 7 := StackNode(), 8 := StackNode(),
        4 := GroupNode([5, 6, 7, 8])]
  }

  /** BuiltGraph is a group over three new stacks, then a group over four. */
  lemma BuiltByTwoGroups()
    ensures AddStacks(AddStacks(map[], 1, 3)[0 := GroupNode(Consecutive(1, 3))], 5, 4)[4 := GroupNode(Consecutive(5, 4))]
         == BuiltGraph()
  {
    AddThreeStacks(map[], 1);
    AddFourStacks(map[1 := StackNode(), 2 := StackNode(), 3 := StackNode(), 0 := GroupNode([1, 2, 3])], 5);
  }

  /** Three fresh stacks, spelled out. */
  lemma AddThreeStacks(m: map<nat, Node>, first: nat)
    ensures AddStacks(m, first, 3) == m[first := StackNode()][first + 1 := StackNode()][first + 2 := StackNode()]
    ensures Consecutive(first, 3) == [first, first + 1, first + 2]
  {
    assert AddStacks(m, first, 1) == m[first := StackNode()];
    var c := Consecutive(first, 3);
    assert c[0] == first && c[1] == first + 1 && c[2] == first + 2;
  }

  /** Four fresh stacks, spelled out. */
  lemma AddFourStacks(m: map<nat, Node>, first: nat)
    ensures AddStacks(m, first, 4)
      == m[first := StackNode()][first + 1 := StackNode()][first + 2 := StackNode()][first + 3 := StackNode()]
    ensures Consecutive(first, 4) == [first, first + 1, first + 2, first + 3]
  {
    AddThreeStacks(m, first);
    var c := Consecutive(first, 4);
    assert c[0] == first && c[1] == first + 1 && c[2] == first + 2 && c[3] == first + 3;
  }

  /** One pass of the setup loop (GraphLayout.js:36-39): the id is the key's
      string, parents start empty, absent children become an empty list. */
  function SetUpNode(key: nat, n: Node): Node
  {
    n.(id := Some(NatToString(key)), parents := Some([]), children := Some(ChildrenOf(n)))
  }

  /** `k` copies of p. */
  function Repeat(p: nat, k: nat): (r: seq<nat>)
    ensures |r| == k
    ensures forall i :: 0 <= i < k ==> r[i] == p
  {
    seq(k, i requires 0 <= i < k => p)
  }

  /** The parents the back-linking loop pushes onto c while it visits the keys
      below n in ascending order (GraphLayout.js:41-45): each parent once per
      time c occurs among its children. */
  function PushedParents(m: map<nat, Node>, c: nat, n: nat): seq<nat>
  {
    if n == 0 then []
    else
      var pushed := if n - 1 in m then Repeat(n - 1, multiset(ChildrenOf(m[n - 1]))[c]) else [];
      PushedParents(m, c, n - 1) + pushed
  }

  /** p is pushed onto c's parents exactly when c is one of p's children. */
  lemma {:induction false} PushedParentsIff(m: map<nat, Node>, c: nat, n: nat)
    ensures forall p :: p in PushedParents(m, c, n) <==> p < n && p in m && c in ChildrenOf(m[p])
  {
    if n > 0 {
      PushedParentsIff(m, c, n - 1);
      if n - 1 in m {
        var k := multiset(ChildrenOf(m[n - 1]))[c];
        assert c in ChildrenOf(m[n - 1]) <==> k > 0;
        assert k > 0 ==> Repeat(n - 1, k)[0] == n - 1;
      }
    }
  }

  /** The i-th child of group g gets no parent from the keys below g. */
  lemma {:induction false} NoEarlierParent(m: map<nat, Node>, c: nat, g: nat, i: nat, n: nat)
    requires TreeShaped(m) && g in m && i < |ChildrenOf(m[g])| && ChildrenOf(m[g])[i] == c && n <= g
    ensures PushedParents(m, c, n) == []
  {
    if n > 0 {
      NoEarlierParent(m, c, g, i, n - 1);
      if n - 1 in m {
        var ch := ChildrenOf(m[n - 1]);
        forall j | 0 <= j < |ch| ensures ch[j] != c {
        }
        assert multiset(ch)[c] == 0;
      }
    }
  }

  /** In a tree-shaped graph a node gets at most one parent, and a group none. */
  lemma {:induction false} AtMostOneParent(m: map<nat, Node>, c: nat, n: nat)
    requires TreeShaped(m)
    ensures |PushedParents(m, c, n)| <= 1
    ensures c in m && m[c].kind == GroupKind ==> PushedParents(m, c, n) == []
  {
    if n > 0 {
      AtMostOneParent(m, c, n - 1);
      var prev := PushedParents(m, c, n - 1);
      if n - 1 in m {
        var ch := ChildrenOf(m[n - 1]);
        var pushed := Repeat(n - 1, multiset(ch)[c]);
        assert PushedParents(m, c, n) == prev + pushed;
        if c in ch {
          var i :| 0 <= i < |ch| && ch[i] == c;
          OccursOnce(ch, i);
          NoEarlierParent(m, c, n - 1, i, n - 1);
          assert |prev + pushed| == 1;
          assert c in m && m[c].kind != GroupKind;
        } else {
          assert multiset(ch)[c] == 0;
          assert prev + pushed == prev;
        }
      } else {
        assert PushedParents(m, c, n) == prev + [];
      }
    }
  }

  /** A node once the back-linking loop has visited the keys below p. */
  function LinkedAt(m: map<nat, Node>, key: nat, p: nat): Node
    requires key in m && m[key].parents.Some?
  {
    m[key].(parents := Some(m[key].parents.value + PushedParents(m, key, p)))
  }

  /** n with p pushed onto its parents `count` times. */
  function PushedOnto(n: Node, p: nat, count: nat): Node
    requires n.parents.Some?
  {
    n.(parents := Some(n.parents.value + Repeat(p, count)))
  }

  /** Every node has a parents list, as the setup loop leaves it. */
  ghost predicate HasParents(m: map<nat, Node>)
  {
    forall k :: k in m ==> m[k].parents.Some?
  }

  /** The graph once p has been pushed onto the parents of each of cs, in order. */
  function PushedFor(m: map<nat, Node>, p: nat, cs: seq<nat>): (r: map<nat, Node>)
    requires HasParents(m)
    ensures r.Keys == m.Keys && HasParents(r)
  {
    map key | key in m :: PushedOnto(m[key], p, multiset(cs)[key])
  }

  /** The graph once the back-linking loop has visited the keys below p. */
  function LinkedBelow(m: map<nat, Node>, p: nat): (r: map<nat, Node>)
    requires HasParents(m)
    ensures r.Keys == m.Keys && HasParents(r)
  {
    map key | key in m :: LinkedAt(m, key, p)
  }

  lemma LinkedStart(m: map<nat, Node>, key: nat)
    requires key in m && m[key].parents.Some?
    ensures LinkedAt(m, key, 0) == m[key]
    ensures PushedOnto(m[key], key, 0) == m[key]
  {
    assert m[key].parents.value + [] == m[key].parents.value;
  }

  lemma LinkedNext(m: map<nat, Node>, key: nat, p: nat)
    requires key in m && m[key].parents.Some?
    ensures p in m ==> PushedOnto(LinkedAt(m, key, p), p, multiset(ChildrenOf(m[p]))[key]) == LinkedAt(m, key, p + 1)
    ensures p !in m ==> LinkedAt(m, key, p) == LinkedAt(m, key, p + 1)
  {
    var a := m[key].parents.value;
    var pushed := PushedParents(m, key, p);
    if p in m {
      var r := Repeat(p, multiset(ChildrenOf(m[p]))[key]);
      assert (a + pushed) + r == a + (pushed + r);
    } else {
      assert pushed + [] == pushed;
    }
  }

  /** After the back-linking loop has visited every key, a node whose parents
      started empty lists exactly the nodes that have it among their children. */
  lemma BackLinksIff(m: map<nat, Node>, c: nat, n: nat)
    requires c in m && m[c].parents == Some([])
    requires forall k :: k in m ==> k < n
    ensures forall p :: p in LinkedAt(m, c, n).parents.value <==> p in m && c in ChildrenOf(m[p])
  {
    PushedParentsIff(m, c, n);
    assert LinkedAt(m, c, n).parents.value == PushedParents(m, c, n);
  }

  /** Pushing onto nobody's parents, and visiting no parent, change nothing. */
  lemma NothingPushed(m: map<nat, Node>, p: nat)
    requires HasParents(m)
    ensures PushedFor(m, p, []) == m
    ensures LinkedBelow(m, 0) == m
  {
    forall key | key in m ensures PushedFor(m, p, [])[key] == m[key] && LinkedBelow(m, 0)[key] == m[key] {
      LinkedStart(m, key);
      assert m[key].parents.value + [] == m[key].parents.value;
    }
  }

  /** One turn of the inner loop: pushing p onto c's parents. */
  lemma PushStep(m: map<nat, Node>, p: nat, cs: seq<nat>, c: nat)
    requires HasParents(m) && c in m
    ensures var now := PushedFor(m, p, cs);
      now[c := now[c].(parents := Some(now[c].parents.value + [p]))] == PushedFor(m, p, cs + [c])
  {
    var now := PushedFor(m, p, cs);
    var next := now[c := now[c].(parents := Some(now[c].parents.value + [p]))];
    var after := PushedFor(m, p, cs + [c]);
    assert multiset(cs + [c]) == multiset(cs) + multiset{c};
    forall key | key in m ensures next[key] == after[key] {
      if key == c {
        assert multiset(cs + [c])[c] == multiset(cs)[c] + 1;
        PushedOntoOnce(m[c], p, multiset(cs)[c]);
      } else {
        assert multiset(cs + [c])[key] == multiset(cs)[key];
        assert next[key] == now[key];
      }
    }
    SameEntries(next, after);
  }

  /** Pushing p once more onto n's parents. */
  lemma PushedOntoOnce(n: Node, p: nat, count: nat)
    requires n.parents.Some?
    ensures var pushed := PushedOnto(n, p, count);
      pushed.(parents := Some(pushed.parents.value + [p])) == PushedOnto(n, p, count + 1)
  {
    assert Repeat(p, count + 1) == Repeat(p, count) + [p];
    assert n.parents.value + Repeat(p, count) + [p] == n.parents.value + Repeat(p, count + 1);
  }

  /** One turn of the outer loop: visiting p pushes it onto its children. */
  lemma LinkStep(m: map<nat, Node>, p: nat)
    requires HasParents(m)
    ensures p in m ==> PushedFor(LinkedBelow(m, p), p, ChildrenOf(m[p])) == LinkedBelow(m, p + 1)
    ensures p !in m ==> LinkedBelow(m, p) == LinkedBelow(m, p + 1)
  {
    var now := LinkedBelow(m, p);
    var after := LinkedBelow(m, p + 1);
    if p in m {
      var next := PushedFor(now, p, ChildrenOf(m[p]));
      forall key | key in m ensures next[key] == after[key] {
        LinkedNext(m, key, p);
      }
      SameEntries(next, after);
    } else {
      forall key | key in m ensures now[key] == after[key] {
        LinkedNext(m, key, p);
      }
      SameEntries(now, after);
    }
  }

  /** Back-linking changes only parents lists. */
  lemma LinkedShape(m: map<nat, Node>, p: nat)
    requires HasParents(m)
    ensures SameShape(m, LinkedBelow(m, p))
  {
  }

  lemma PrefixStep(s: seq<nat>, j: nat)
    requires j < |s|
    ensures s[..j + 1] == s[..j] + [s[j]]
  {
  }

  lemma WholePrefix(s: seq<nat>)
    ensures s[..|s|] == s
  {
  }

  /** In a list without repeats an element occurs once. */
  lemma OccursOnce(s: seq<nat>, i: nat)
    requires i < |s|
    requires forall j :: 0 <= j < |s| && s[j] == s[i] ==> j == i
    ensures multiset(s)[s[i]] == 1
  {
    assert s == s[..i] + [s[i]] + s[i + 1..];
    assert s[i] !in s[..i];
    assert s[i] !in s[i + 1..];
  }

  // ---------------------------------------------------------------------------
  // What graphLayout computes
  // ---------------------------------------------------------------------------

  /** How many groups have a key below k: the index `entries()` gives the
      group at key k in the filtered, key-ordered node list. */
  function GroupsBelow(m: map<nat, Node>, k: nat): nat
  {
    if k == 0 then 0
    else GroupsBelow(m, k - 1) + (if k - 1 in m && m[k - 1].kind == GroupKind then 1 else 0)
  }

  /** Groups are numbered 0, 1, 2, ... in ascending key order. */
  lemma {:induction false} GroupRanksAscend(m: map<nat, Node>, g: nat, h: nat)
    requires g < h && g in m && m[g].kind == GroupKind
    ensures GroupsBelow(m, g) < GroupsBelow(m, h)
    ensures GroupsBelow(m, g) <= g
  {
    if h > g + 1 {
      GroupRanksAscend(m, g, h - 1);
    } else {
      GroupsBelowAtMost(m, g);
    }
  }

  lemma {:induction false} GroupsBelowAtMost(m: map<nat, Node>, k: nat)
    ensures GroupsBelow(m, k) <= k
  {
    if k > 0 {
      GroupsBelowAtMost(m, k - 1);
    }
  }

  /** Where the group of rank r goes (GraphLayout.js:57-60). */
  function GroupPosition(d: LayoutData, r: nat): Point
  {
    Point(d.rootX + (r as real) * d.shiftX_GroupGroup, d.rootY)
  }

  /** Where the i-th stack of a group at g goes (GraphLayout.js:64-67). */
  function StackBelow(g: Point, d: LayoutData, i: nat): Point
  {
    Point(g.x + d.shiftX_StackGroup, g.y + d.shiftY_StackGroup + (i as real) * d.shiftY_StackStack)
  }

  /** Where the i-th stack of the group of rank r goes. */
  function StackPosition(d: LayoutData, r: nat, i: nat): Point
  {
    StackBelow(GroupPosition(d, r), d, i)
  }

  /** With the initial parameters, groups sit on the line y = 0 one node
      diameter apart, and the stacks of a group hang in a column one diameter
      to its right, starting two diameters below it; neighbouring stacks are
      1.5 diameters apart, so their circles do not overlap. */
  lemma InitialLayout(r: nat, i: nat)
    ensures GroupPosition(InitialData, r) == Point(40.0 * (r as real), 0.0)
    ensures StackPosition(InitialData, r, i) == Point(40.0 * (r as real) + 40.0, 80.0 + 60.0 * (i as real))
    ensures StackPosition(InitialData, r, i + 1).y - StackPosition(InitialData, r, i).y > 2.0 * NodeRadius
    ensures StackPosition(InitialData, r, i).x == GroupPosition(InitialData, r).x + 2.0 * NodeRadius
  {
  }

  function PlacedGroup(n: Node, d: LayoutData, r: nat): Node
  {
    n.(position := Some(GroupPosition(d, r)), groupIndex := Some(r))
  }

  function PlacedStack(n: Node, d: LayoutData, r: nat, i: nat): Node
  {
    n.(stackIndex := Some(i), position := Some(StackPosition(d, r, i)))
  }

  /** The first position of x in s. */
  function IndexOf(s: seq<nat>, x: nat): (i: nat)
    requires x in s
    ensures i < |s| && s[i] == x
    ensures forall j :: 0 <= j < i ==> s[j] != x
  {
    if s[0] == x then 0 else 1 + IndexOf(s[1..], x)
  }

  /** The group below key `bound` that has key among its children, with the
      child's position, searching from the highest key down. */
  function Owner(m: map<nat, Node>, key: nat, bound: nat): Option<(nat, nat)>
  {
    if bound == 0 then None
    else
      var g := bound - 1;
      if g in m && m[g].kind == GroupKind && key in ChildrenOf(m[g])
      then Some((g, IndexOf(ChildrenOf(m[g]), key)))
      else Owner(m, key, g)
  }

  /** A node after graphLayout has handled the groups with keys below bound. */
  ghost function LaidOutNode(m: map<nat, Node>, d: LayoutData, bound: nat, key: nat): (r: Node)
    requires key in m
    ensures r.(position := m[key].position, groupIndex := m[key].groupIndex, stackIndex := m[key].stackIndex) == m[key]
  {
    if m[key].kind == GroupKind && key < bound then PlacedGroup(m[key], d, GroupsBelow(m, key))
    else
      match Owner(m, key, bound)
      case None => m[key]
      case Some(o) => PlacedStack(m[key], d, GroupsBelow(m, o.0), o.1)
  }

  /** The graph after `graphLayout(d)` when every key is below n. */
  ghost function LaidOut(m: map<nat, Node>, d: LayoutData, n: nat): (r: map<nat, Node>)
    ensures SameShape(m, r)
    ensures forall key :: key in m ==> r[key].id == m[key].id && r[key].parents == m[key].parents
  {
    map key | key in m :: LaidOutNode(m, d, n, key)
  }

  /** No group below bound has key among its children. */
  lemma {:induction false} OwnerNone(m: map<nat, Node>, key: nat, bound: nat)
    requires forall g :: g < bound && g in m && m[g].kind == GroupKind ==> key !in ChildrenOf(m[g])
    ensures Owner(m, key, bound) == None
  {
    if bound > 0 {
      OwnerNone(m, key, bound - 1);
    }
  }

  /** In a list without repeats, the first position of s[i] is i. */
  lemma IndexOfDistinct(s: seq<nat>, i: nat)
    requires i < |s|
    requires forall j :: 0 <= j < |s| && s[j] == s[i] ==> j == i
    ensures IndexOf(s, s[i]) == i
  {
  }

  /** In a tree-shaped graph the owner of the i-th child of group g is g, at i. */
  lemma {:induction false} OwnerOfChild(m: map<nat, Node>, g: nat, i: nat, bound: nat)
    requires TreeShaped(m)
    requires g in m && m[g].kind == GroupKind && g < bound && i < |ChildrenOf(m[g])|
    ensures Owner(m, ChildrenOf(m[g])[i], bound) == Some((g, i))
  {
    var c := ChildrenOf(m[g])[i];
    if bound - 1 == g {
      IndexOfDistinct(ChildrenOf(m[g]), i);
    } else {
      OwnerOfChild(m, g, i, bound - 1);
    }
  }

  /** Handling the group at key k: it and its children take their final
      places, every other node keeps its state. */
  lemma LaidOutStep(m: map<nat, Node>, d: LayoutData, k: nat, key: nat)
    requires TreeShaped(m) && key in m
    ensures k in m && m[k].kind == GroupKind && key == k ==>
      LaidOutNode(m, d, k, key) == m[key] &&
      LaidOutNode(m, d, k + 1, key) == PlacedGroup(m[key], d, GroupsBelow(m, k))
    ensures k in m && m[k].kind == GroupKind && key in ChildrenOf(m[k]) ==>
      LaidOutNode(m, d, k, key) == m[key] &&
      LaidOutNode(m, d, k + 1, key) == PlacedStack(m[key], d, GroupsBelow(m, k), IndexOf(ChildrenOf(m[k]), key))
    ensures !(k in m && m[k].kind == GroupKind && (key == k || key in ChildrenOf(m[k]))) ==>
      LaidOutNode(m, d, k + 1, key) == LaidOutNode(m, d, k, key)
  {
    if k in m && m[k].kind == GroupKind {
      if key == k {
        OwnerNone(m, key, k);
      } else if key in ChildrenOf(m[k]) {
        var i := IndexOf(ChildrenOf(m[k]), key);
        OwnerNone(m, key, k);
      }
    }
  }

  /** Maps with the same keys and the same value at each key are equal. */
  lemma SameEntries(a: map<nat, Node>, b: map<nat, Node>)
    requires a.Keys == b.Keys
    requires forall key :: key in a ==> a[key] == b[key]
    ensures a == b
  {
  }

  /** The children of the group at k, pairwise distinct, none of them k. */
  ghost predicate DistinctChildren(m: map<nat, Node>, k: nat)
    requires k in m
  {
    (forall i :: 0 <= i < |ChildrenOf(m[k])| ==> ChildrenOf(m[k])[i] in m && ChildrenOf(m[k])[i] != k) &&
    (forall i, j :: 0 <= i < j < |ChildrenOf(m[k])| ==> ChildrenOf(m[k])[i] != ChildrenOf(m[k])[j])
  }

  /** The graph once the group at k has been placed as group number r and
      the first i of its children below it. */
  function PlacedUpTo(m: map<nat, Node>, k: nat, r: nat, d: LayoutData, i: nat): (res: map<nat, Node>)
    requires k in m && i <= |ChildrenOf(m[k])|
    ensures res.Keys == m.Keys
  {
    var cs := ChildrenOf(m[k]);
    map key | key in m ::
      if key == k then PlacedGroup(m[k], d, r)
      else if key in cs && IndexOf(cs, key) < i then PlacedStack(m[key], d, r, IndexOf(cs, key))
      else m[key]
  }

  /** Placing the group itself. */
  lemma PlaceGroupStart(m: map<nat, Node>, k: nat, r: nat, d: LayoutData)
    requires k in m
    ensures m[k := m[k].(position := Some(GroupPosition(d, r)), groupIndex := Some(r))] == PlacedUpTo(m, k, r, d, 0)
  {
  }

  /** Placing the i-th child: it goes below the group's new position. */
  lemma PlaceStackStep(m: map<nat, Node>, k: nat, r: nat, d: LayoutData, i: nat)
    requires k in m && DistinctChildren(m, k) && i < |ChildrenOf(m[k])|
    ensures var now := PlacedUpTo(m, k, r, d, i);
      var c := ChildrenOf(m[k])[i];
      c in now && now[k].position.Some? &&
      now[c := now[c].(stackIndex := Some(i), position := Some(StackBelow(now[k].position.value, d, i)))]
        == PlacedUpTo(m, k, r, d, i + 1)
  {
    var cs := ChildrenOf(m[k]);
    var c := cs[i];
    var now := PlacedUpTo(m, k, r, d, i);
    var next := now[c := now[c].(stackIndex := Some(i), position := Some(StackBelow(now[k].position.value, d, i)))];
    IndexOfDistinct(cs, i);
    assert now[c] == m[c];
    var after := PlacedUpTo(m, k, r, d, i + 1);
    forall key | key in m ensures next[key] == after[key] {
      if key != c && key != k {
        assert next[key] == now[key];
        assert key in cs ==> IndexOf(cs, key) != i;
      }
    }
    SameEntries(next, after);
  }

  /** Before the group at k is handled it still has its children, and in a
      tree-shaped graph they are distinct nodes other than k. */
  lemma GroupReady(m: map<nat, Node>, d: LayoutData, k: nat)
    requires TreeShaped(m) && k in m && m[k].kind == GroupKind
    ensures var before := LaidOut(m, d, k);
      k in before && ChildrenOf(before[k]) == ChildrenOf(m[k]) && DistinctChildren(before, k)
  {
    var before := LaidOut(m, d, k);
    var cs := ChildrenOf(m[k]);
    assert ChildrenOf(before[k]) == cs;
    forall i | 0 <= i < |cs| ensures cs[i] in before && cs[i] != k {
      assert m[cs[i]].kind != GroupKind;
    }
  }

  /** Placing the group at key k and its children takes the graph from the
      state after the groups below k to the state after the groups below k + 1. */
  lemma GroupPlaced(m: map<nat, Node>, d: LayoutData, k: nat)
    requires TreeShaped(m) && k in m && m[k].kind == GroupKind
    ensures var before := LaidOut(m, d, k);
      k in before && ChildrenOf(before[k]) == ChildrenOf(m[k]) && DistinctChildren(before, k) &&
      PlacedUpTo(before, k, GroupsBelow(m, k), d, |ChildrenOf(m[k])|) == LaidOut(m, d, k + 1)
  {
    GroupReady(m, d, k);
    var before := LaidOut(m, d, k);
    var after := PlacedUpTo(before, k, GroupsBelow(m, k), d, |ChildrenOf(m[k])|);
    var next := LaidOut(m, d, k + 1);
    forall key | key in m ensures after[key] == next[key] {
      GroupPlacedAt(m, d, k, key);
    }
    SameEntries(after, next);
  }

  lemma GroupPlacedAt(m: map<nat, Node>, d: LayoutData, k: nat, key: nat)
    requires TreeShaped(m) && k in m && m[k].kind == GroupKind && key in m
    requires var before := LaidOut(m, d, k);
      k in before && ChildrenOf(before[k]) == ChildrenOf(m[k])
    ensures PlacedUpTo(LaidOut(m, d, k), k, GroupsBelow(m, k), d, |ChildrenOf(m[k])|)[key] == LaidOutNode(m, d, k + 1, key)
  {
    var before := LaidOut(m, d, k);
    var r := GroupsBelow(m, k);
    var cs := ChildrenOf(m[k]);
    var after := PlacedUpTo(before, k, r, d, |cs|);
    LaidOutStep(m, d, k, key);
    if key == k {
      assert after[key] == PlacedGroup(before[k], d, r);
    } else if key in cs {
      assert after[key] == PlacedStack(before[key], d, r, IndexOf(cs, key));
    } else {
      assert after[key] == before[key];
    }
  }

  /** A key that holds no group changes nothing. */
  lemma NothingPlaced(m: map<nat, Node>, d: LayoutData, k: nat)
    requires TreeShaped(m)
    requires !(k in m && m[k].kind == GroupKind)
    ensures LaidOut(m, d, k) == LaidOut(m, d, k + 1)
  {
    forall key | key in m ensures LaidOut(m, d, k)[key] == LaidOut(m, d, k + 1)[key] {
      LaidOutStep(m, d, k, key);
    }
  }

  /** Before the first group nothing is placed. */
  lemma NothingPlacedYet(m: map<nat, Node>, d: LayoutData)
    ensures LaidOut(m, d, 0) == m
  {
  }

  lemma {:induction false} ShapeGroupsBelow(m: map<nat, Node>, m': map<nat, Node>, k: nat)
    requires SameShape(m, m')
    ensures GroupsBelow(m', k) == GroupsBelow(m, k)
  {
    if k > 0 {
      ShapeGroupsBelow(m, m', k - 1);
    }
  }

  lemma {:induction false} ShapeOwner(m: map<nat, Node>, m': map<nat, Node>, key: nat, bound: nat)
    requires SameShape(m, m')
    ensures Owner(m', key, bound) == Owner(m, key, bound)
  {
    if bound > 0 {
      ShapeOwner(m, m', key, bound - 1);
    }
  }

  lemma {:induction false} ShapePushedParents(m: map<nat, Node>, m': map<nat, Node>, c: nat, n: nat)
    requires SameShape(m, m')
    ensures PushedParents(m', c, n) == PushedParents(m, c, n)
  {
    if n > 0 {
      ShapePushedParents(m, m', c, n - 1);
    }
  }

  /** The k-th group in key order goes to (rootX + k * shiftX_GroupGroup,
      rootY) and records k as its groupIndex. */
  lemma LaidOutGroup(m: map<nat, Node>, d: LayoutData, n: nat, g: nat)
    requires g in m && m[g].kind == GroupKind && g < n
    ensures var r := GroupsBelow(m, g);
      LaidOut(m, d, n)[g].position == Some(GroupPosition(d, r)) &&
      LaidOut(m, d, n)[g].groupIndex == Some(r) &&
      LaidOut(m, d, n)[g].stackIndex == m[g].stackIndex
  {
  }

  /** The i-th child of a group sits shiftX_StackGroup right of it and
      shiftY_StackGroup + i * shiftY_StackStack below it, and records i as
      its stackIndex. */
  lemma LaidOutStack(m: map<nat, Node>, d: LayoutData, n: nat, g: nat, i: nat)
    requires TreeShaped(m)
    requires g in m && m[g].kind == GroupKind && g < n && i < |ChildrenOf(m[g])|
    ensures var c := ChildrenOf(m[g])[i];
      var r := LaidOut(m, d, n);
      var at := r[g].position.value;
      r[g].position.Some? &&
      r[c].position == Some(StackBelow(at, d, i)) &&
      r[c].stackIndex == Some(i) &&
      r[c].groupIndex == m[c].groupIndex
  {
    OwnerOfChild(m, g, i, n);
  }

  /** A node that is neither a group nor a group's child keeps its position
      and indices. */
  lemma LaidOutUntouched(m: map<nat, Node>, d: LayoutData, n: nat, key: nat)
    requires key in m && m[key].kind != GroupKind
    requires forall g :: g in m && m[g].kind == GroupKind ==> key !in ChildrenOf(m[g])
    ensures LaidOut(m, d, n)[key] == m[key]
  {
    OwnerNone(m, key, n);
  }

  /** Laying out again with new data gives what laying out the original
      graph with the new data gives: every layout field is overwritten. */
  lemma LayoutOverrides(m: map<nat, Node>, d1: LayoutData, d2: LayoutData, n: nat)
    ensures LaidOut(LaidOut(m, d1, n), d2, n) == LaidOut(m, d2, n)
  {
    var m1 := LaidOut(m, d1, n);
    var a := LaidOut(m1, d2, n);
    var b := LaidOut(m, d2, n);
    forall key | key in m ensures a[key] == b[key] {
      RelaidNode(m, d1, d2, n, key);
    }
    SameEntries(a, b);
  }

  /** graphLayout run twice with the same data gives what running it once gives. */
  lemma LayoutIdempotent(m: map<nat, Node>, d: LayoutData, n: nat)
    ensures LaidOut(LaidOut(m, d, n), d, n) == LaidOut(m, d, n)
  {
    LayoutOverrides(m, d, d, n);
  }


  lemma RelaidNode(m: map<nat, Node>, d1: LayoutData, d2: LayoutData, n: nat, key: nat)
    requires key in m
    ensures key in LaidOut(m, d1, n)
    ensures LaidOutNode(LaidOut(m, d1, n), d2, n, key) == LaidOutNode(m, d2, n, key)
  {
    var m1 := LaidOut(m, d1, n);
    assert m1[key] == LaidOutNode(m, d1, n, key);
    ShapeGroupsBelow(m, m1, key);
    ShapeOwner(m, m1, key, n);
    match Owner(m, key, n)
    case None =>
    case Some(o) =>
      ShapeGroupsBelow(m, m1, o.0);
  }

  /** The map the setup loop has made of m once it has visited the keys below k. */
  function SetUpBelow(m: map<nat, Node>, k: nat): (r: map<nat, Node>)
    ensures r.Keys == m.Keys
  {
    if k == 0 then m
    else
      var prev := SetUpBelow(m, k - 1);
      if k - 1 in prev then prev[k - 1 := SetUpNode(k - 1, prev[k - 1])] else prev
  }

  /** After the keys below k, exactly those nodes are set up. */
  lemma {:induction false} SetUpBelowAt(m: map<nat, Node>, k: nat, key: nat)
    requires key in m
    ensures SetUpBelow(m, k)[key] == if key < k then SetUpNode(key, m[key]) else m[key]
  {
    if k > 0 {
      SetUpBelowAt(m, k - 1, key);
      if k - 1 != key && k - 1 in m {
        SetUpBelowAt(m, k - 1, k - 1);
      }
    }
  }

  /** Setting up keeps every node's kind and children. */
  lemma SetUpShape(m: map<nat, Node>, k: nat)
    ensures SameShape(m, SetUpBelow(m, k))
  {
    forall key | key in m
      ensures SetUpBelow(m, k)[key].kind == m[key].kind && ChildrenOf(SetUpBelow(m, k)[key]) == ChildrenOf(m[key])
    {
      SetUpBelowAt(m, k, key);
      SetUpKeepsShape(key, m[key]);
    }
  }

  lemma SetUpKeepsShape(key: nat, n: Node)
    ensures SetUpNode(key, n).kind == n.kind && ChildrenOf(SetUpNode(key, n)) == ChildrenOf(n)
  {
  }

  /** The `graph` dictionary together with makeGraph's `nextNodeId` counter. */
  class Graph {
    var nodes: map<nat, Node>
    var nextNodeId: nat

    /** Every key was handed out by the counter. */
    ghost predicate Issued()
      reads this
    {
      forall k :: k in nodes ==> k < nextNodeId
    }

    /** Every key was handed out by the counter, and the graph is tree-shaped. */
    ghost predicate Valid()
      reads this
    {
      Issued() && TreeShaped(nodes)
    }

    /** `const graph = {}; let nextNodeId = 0;` (GraphLayout.js:6-7) */
    constructor ()
      ensures Valid()
      ensures nodes == map[] && nextNodeId == 0
    {
      nodes := map[];
      nextNodeId := 0;
    }

    /** `newStack()` (GraphLayout.js:8-10): a stack under the next key. */
    method NewStack() returns (key: nat)
      requires Valid()
      modifies this
      ensures Valid()
      ensures key == old(nextNodeId) && key !in old(nodes)
      ensures nextNodeId == key + 1
      ensures nodes == old(nodes)[key := StackNode()]
    {
      key := nextNodeId;
      nextNodeId := nextNodeId + 1;
      AddLeafKeepsTree(nodes, key);
      nodes := nodes[key := StackNode()];
    }

    /** `newGroup(stackSize)` (GraphLayout.js:11-13). The key on the left of
        the assignment is taken first, so the group gets the next key and its
        stacks the keys after it; the group is stored once its stacks exist. */
    method NewGroup(stackSize: nat) returns (key: nat)
      requires Valid()
      modifies this
      ensures Valid()
      ensures key == old(nextNodeId) && nextNodeId == key + 1 + stackSize
      ensures nodes == AddStacks(old(nodes), key + 1, stackSize)[key := GroupNode(Consecutive(key + 1, stackSize))]
    {
      key := nextNodeId;
      nextNodeId := nextNodeId + 1;
      ghost var m0 := nodes;
      var slots := Util.Range(stackSize as real, None, None);
      Util.IntegerRangeLength(stackSize);
      var children := [];
      for i := 0 to |slots|
        invariant nextNodeId == key + 1 + i
        invariant children == Consecutive(key + 1, i)
        invariant nodes == AddStacks(m0, key + 1, i)
      {
        StacksBelowCounter(m0, key, i);
        var c := NewStack();
        ConsecutiveNext(key + 1, i);
        children := children + [c];
      }
      StacksBelowCounter(m0, key, stackSize);
      GroupOverNewStacks(m0, key, stackSize);
      nodes := nodes[key := GroupNode(children)];
    }

    /** The setup loop `for (const nodeId in graph)` (GraphLayout.js:35-40):
        integer-like keys are visited in ascending order. */
    method SetUp()
      requires Issued()
      modifies this
      ensures Issued() && nextNodeId == old(nextNodeId)
      ensures nodes == SetUpBelow(old(nodes), nextNodeId)
      ensures SameShape(old(nodes), nodes)
      ensures forall k :: k in nodes ==> nodes[k] == SetUpNode(k, old(nodes)[k])
    {
      ghost var m := nodes;
      assert nodes == SetUpBelow(m, 0);
      for k := 0 to nextNodeId
        invariant nextNodeId == old(nextNodeId)
        invariant nodes == SetUpBelow(m, k)
      {
        if k in nodes {
          nodes := nodes[k := SetUpNode(k, nodes[k])];
        }
      }
      SetUpShape(m, nextNodeId);
      forall k | k in nodes ensures nodes[k] == SetUpNode(k, m[k]) {
        SetUpBelowAt(m, nextNodeId, k);
      }
    }

    /** One turn of graphLayout's outer loop (GraphLayout.js:57-68): place
        the group at key k as group number `groupIndex`, then each of its
        children below it, reading the group's new position. The children
        must be nodes of the graph; the model takes them distinct and other
        than k, as in every graph makeGraph builds. */
    method PlaceGroup(k: nat, groupIndex: nat, data: LayoutData)
      requires k in nodes && DistinctChildren(nodes, k)
      modifies this
      ensures nextNodeId == old(nextNodeId)
      ensures nodes == PlacedUpTo(old(nodes), k, groupIndex, data, |ChildrenOf(old(nodes)[k])|)
    {
      ghost var m := nodes;
      var group := nodes[k];
      PlaceGroupStart(m, k, groupIndex, data);
      nodes := nodes[k := group.(position := Some(GroupPosition(data, groupIndex)), groupIndex := Some(groupIndex))];
      var children := ChildrenOf(group);
      for i := 0 to |children|
        invariant nextNodeId == old(nextNodeId)
        invariant nodes == PlacedUpTo(m, k, groupIndex, data, i)
      {
        PlaceStackStep(m, k, groupIndex, data, i);
        var stack := children[i];
        var groupPosition := nodes[k].position.value;
        nodes := nodes[stack := nodes[stack].(stackIndex := Some(i), position := Some(StackBelow(groupPosition, data, i)))];
      }
    }

    /** `graphLayout(data)` (GraphLayout.js:55-70): the groups in ascending key
        order, numbered from 0, each with its children. */
    method Layout(data: LayoutData)
      requires Valid()
      modifies this
      ensures Valid() && nextNodeId == old(nextNodeId)
      ensures nodes == LaidOut(old(nodes), data, nextNodeId)
    {
      ghost var m := nodes;
      NothingPlacedYet(m, data);
      var groupIndex := 0;
      for k := 0 to nextNodeId
        invariant nextNodeId == old(nextNodeId)
        invariant groupIndex == GroupsBelow(m, k)
        invariant nodes == LaidOut(m, data, k)
      {
        if k in nodes && nodes[k].kind == GroupKind {
          GroupPlaced(m, data, k);
          PlaceGroup(k, groupIndex, data);
          groupIndex := groupIndex + 1;
        } else {
          NothingPlaced(m, data, k);
        }
      }
      SameShapeTree(m, nodes);
    }

    /** One parent's turn in the back-linking loop (GraphLayout.js:42-44):
        p is pushed onto the parents of each of its children, in order. */
    method LinkChildren(p: nat)
      requires p in nodes && HasParents(nodes)
      requires forall i :: 0 <= i < |ChildrenOf(nodes[p])| ==> ChildrenOf(nodes[p])[i] in nodes
      modifies this
      ensures nextNodeId == old(nextNodeId)
      ensures nodes == PushedFor(old(nodes), p, ChildrenOf(old(nodes)[p]))
    {
      ghost var m := nodes;
      var children := ChildrenOf(nodes[p]);
      NothingPushed(m, p);
      assert children[..0] == [];
      for j := 0 to |children|
        invariant nextNodeId == old(nextNodeId)
        invariant nodes == PushedFor(m, p, children[..j])
      {
        var c := children[j];
        assert c in m;
        PushStep(m, p, children[..j], c);
        PrefixStep(children, j);
        var n := nodes[c];
        nodes := nodes[c := n.(parents := Some(n.parents.value + [p]))];
      }
      WholePrefix(children);
    }

    /** The back-linking loop (GraphLayout.js:41-45): every parent, in key
        order, pushes itself onto each of its children's `parents`. The source
        needs every node's parents list to exist and every child to be a node. */
    method LinkParents()
      requires Issued() && HasParents(nodes)
      requires forall p, i :: p in nodes && 0 <= i < |ChildrenOf(nodes[p])| ==> ChildrenOf(nodes[p])[i] in nodes
      modifies this
      ensures Issued() && nextNodeId == old(nextNodeId)
      ensures SameShape(old(nodes), nodes)
      ensures nodes == LinkedBelow(old(nodes), nextNodeId)
      ensures forall k :: k in nodes ==> nodes[k] == LinkedAt(old(nodes), k, nextNodeId)
    {
      ghost var m := nodes;
      NothingPushed(m, 0);
      for p := 0 to nextNodeId
        invariant nextNodeId == old(nextNodeId)
        invariant nodes == LinkedBelow(m, p)
      {
        LinkStep(m, p);
        if p in nodes {
          LinkedShape(m, p);
          assert ChildrenOf(nodes[p]) == ChildrenOf(m[p]);
          LinkChildren(p);
        }
      }
      LinkedShape(m, nextNodeId);
    }
  }

  /** `makeGraph()` (GraphLayout.js:5-17). */
  method MakeGraph() returns (g: Graph)
    ensures fresh(g) && g.Valid()
    ensures g.nodes == BuiltGraph() && g.nextNodeId == 9
  {
    g := new Graph();
    BuiltByTwoGroups();
    var first := g.NewGroup(3);
    ghost var m1 := g.nodes;
    assert m1 == AddStacks(map[], 1, 3)[0 := GroupNode(Consecutive(1, 3))];
    var second := g.NewGroup(4);
    assert g.nodes == AddStacks(m1, 5, 4)[4 := GroupNode(Consecutive(5, 4))];
  }

  // ---------------------------------------------------------------------------
  // getAffects
  // ---------------------------------------------------------------------------

  /** JavaScript truthiness of an optional index: undefined and 0 are false. */
  predicate Truthy(index: Option<nat>)
  {
    index.Some? && index.value != 0
  }

  /** `getAffects(node)` (GraphLayout.js:47-53): the layout parameters that
      dragging the node edits; null for a node of another type. */
  function GetAffects(n: Node): (r: Option<seq<string>>)
    ensures r.Some? <==> n.kind == StackKind || n.kind == GroupKind
    ensures r.Some? ==> forall name :: name in r.value ==> name in FieldNames
  {
    if n.kind == StackKind then
      if Truthy(n.stackIndex) then Some(["shiftX_StackGroup", "shiftY_StackStack"])
      else Some(["shiftX_StackGroup", "shiftY_StackGroup"])
    else if n.kind == GroupKind then
      if Truthy(n.groupIndex) then Some(["shiftX_GroupGroup"]) else Some(["rootX", "rootY"])
    else None
  }

  /** After layout, the first group offers the root and the others the gap
      between groups; a group's first stack offers the gap below its group and
      the others the gap between stacks. Each parameter named is one the
      node's position is computed from. */
  lemma AffectsAfterLayout(m: map<nat, Node>, d: LayoutData, n: nat, g: nat, i: nat)
    requires TreeShaped(m)
    requires g in m && m[g].kind == GroupKind && g < n
    ensures GetAffects(LaidOut(m, d, n)[g]) ==
      if GroupsBelow(m, g) == 0 then Some(["rootX", "rootY"]) else Some(["shiftX_GroupGroup"])
    ensures i < |ChildrenOf(m[g])| && m[ChildrenOf(m[g])[i]].kind == StackKind ==>
      GetAffects(LaidOut(m, d, n)[ChildrenOf(m[g])[i]]) ==
        if i == 0 then Some(["shiftX_StackGroup", "shiftY_StackGroup"])
        else Some(["shiftX_StackGroup", "shiftY_StackStack"])
  {
    if i < |ChildrenOf(m[g])| {
      LaidOutStack(m, d, n, g, i);
    }
  }

  // ---------------------------------------------------------------------------
  // Module initialisation
  // ---------------------------------------------------------------------------

  /** The module's top level (GraphLayout.js:18, 35-45): build the graph, run
      the setup loop, then link children back to their parents. Every node
      ends up with its key's string as id and a children list, stacks 1-3
      have group 0 as their only parent, stacks 5-8 have group 4, and the
      groups have none. */
  method LoadModule() returns (g: Graph)
    ensures fresh(g) && g.Valid()
    ensures g.nodes.Keys == BuiltGraph().Keys && g.nextNodeId == 9
    ensures forall k :: k in g.nodes ==>
      g.nodes[k].id == Some(NatToString(k)) &&
      g.nodes[k].kind == BuiltGraph()[k].kind &&
      g.nodes[k].children == Some(ChildrenOf(BuiltGraph()[k]))
    ensures forall k :: k in g.nodes ==> g.nodes[k].parents == Some(BuiltParentOf(k))
  {
    g := MakeGraph();
    ghost var built := g.nodes;
    g.SetUp();
    ghost var prepared := g.nodes;
    SetUpReady(built, prepared);
    g.LinkParents();
    LoadedBuilt(prepared, g.nodes);
  }

  /** The setup loop leaves a graph the back-linking loop can run on, of
      the same shape. */
  lemma SetUpReady(m: map<nat, Node>, prepared: map<nat, Node>)
    requires TreeShaped(m) && SameShape(m, prepared)
    requires forall k :: k in prepared ==> prepared[k] == SetUpNode(k, m[k])
    ensures TreeShaped(prepared) && HasParents(prepared)
    ensures forall p, i :: p in prepared && 0 <= i < |ChildrenOf(prepared[p])| ==> ChildrenOf(prepared[p])[i] in prepared
  {
    SameShapeTree(m, prepared);
  }

  /** A node after setup and back-linking: its key's string as id, its
      children as a list, and the parents that point at it. */
  lemma Loaded(m: map<nat, Node>, prepared: map<nat, Node>, linked: Node, k: nat, n: nat)
    requires SameShape(m, prepared) && k in m
    requires prepared[k] == SetUpNode(k, m[k])
    requires linked == LinkedAt(prepared, k, n)
    ensures linked.id == Some(NatToString(k))
    ensures linked.kind == m[k].kind && linked.children == Some(ChildrenOf(m[k]))
    ensures linked.parents == Some(PushedParents(m, k, n))
  {
    ShapePushedParents(m, prepared, k, n);
    assert [] + PushedParents(m, k, n) == PushedParents(m, k, n);
  }

  /** Loaded, for every node of the linked graph. */
  lemma LoadedAll(m: map<nat, Node>, prepared: map<nat, Node>, linked: map<nat, Node>, n: nat)
    requires SameShape(m, prepared) && SameShape(prepared, linked) && HasParents(prepared)
    requires forall k :: k in prepared ==> prepared[k] == SetUpNode(k, m[k])
    requires forall k :: k in linked ==> linked[k] == LinkedAt(prepared, k, n)
    ensures forall k :: k in linked ==>
      linked[k].id == Some(NatToString(k)) &&
      linked[k].kind == m[k].kind && linked[k].children == Some(ChildrenOf(m[k])) &&
      linked[k].parents == Some(PushedParents(m, k, n))
  {
    forall k | k in linked
      ensures linked[k].id == Some(NatToString(k))
      ensures linked[k].kind == m[k].kind && linked[k].children == Some(ChildrenOf(m[k]))
      ensures linked[k].parents == Some(PushedParents(m, k, n))
    {
      Loaded(m, prepared, linked[k], k, n);
    }
  }


  /** The parents list back-linking gives node k of the built graph. */
  function BuiltParentOf(k: nat): seq<nat>
  {
    if 1 <= k <= 3 then [0] else if 5 <= k <= 8 then [4] else []
  }

  /** Who links to whom in the built graph: stacks 1-3 are linked to group 0,
      stacks 5-8 to group 4, and nothing links to a group. The built graph's
      shape is the one MakeGraph establishes. */
  lemma BuiltParents(k: nat)
    requires TreeShaped(BuiltGraph()) && k <= 8
    ensures PushedParents(BuiltGraph(), k, 9) == BuiltParentOf(k)
  {
    var m := BuiltGraph();
    BuiltChildren(k);
    if 1 <= k <= 3 {
      OnlyParent(m, k, 9, 0);
    } else if 5 <= k <= 8 {
      OnlyParent(m, k, 9, 4);
    } else {
      NoParent(m, k, 9);
    }
  }
  /** BuiltParents, for every key of the built graph. */
  lemma BuiltAllParents()
    requires TreeShaped(BuiltGraph())
    ensures forall k :: k in BuiltGraph() ==> PushedParents(BuiltGraph(), k, 9) == BuiltParentOf(k)
  {
    forall k | k in BuiltGraph() ensures PushedParents(BuiltGraph(), k, 9) == BuiltParentOf(k) {
      BuiltParents(k);
    }
  }
  /** What the setup and back-linking passes make of the built graph. */
  lemma LoadedBuilt(prepared: map<nat, Node>, linked: map<nat, Node>)
    requires TreeShaped(BuiltGraph()) && SameShape(BuiltGraph(), prepared) && HasParents(prepared)
    requires forall k :: k in prepared ==> prepared[k] == SetUpNode(k, BuiltGraph()[k])
    requires SameShape(prepared, linked)
    requires forall k :: k in linked ==> linked[k] == LinkedAt(prepared, k, 9)
    ensures TreeShaped(linked) && linked.Keys == BuiltGraph().Keys
    ensures forall k :: k in linked ==>
      linked[k].id == Some(NatToString(k)) &&
      linked[k].kind == BuiltGraph()[k].kind &&
      linked[k].children == Some(ChildrenOf(BuiltGraph()[k]))
    ensures forall k :: k in linked ==> linked[k].parents == Some(BuiltParentOf(k))
  {
    var m := BuiltGraph();
    SameShapeTree(m, prepared);
    SameShapeTree(prepared, linked);
    LoadedAll(m, prepared, linked, 9);
    BuiltAllParents();
  }



  /** Whose child each key of the built graph is. */
  lemma BuiltChildren(k: nat)
    ensures 1 <= k <= 3 ==> 0 in BuiltGraph() && k in ChildrenOf(BuiltGraph()[0])
    ensures 5 <= k <= 8 ==> 4 in BuiltGraph() && k in ChildrenOf(BuiltGraph()[4])
    ensures k == 0 || k == 4 || 8 < k ==> forall p :: p in BuiltGraph() ==> k !in ChildrenOf(BuiltGraph()[p])
  {
    var m := BuiltGraph();
    forall p | p in m ensures ChildrenOf(m[p]) == if p == 0 then [1, 2, 3] else if p == 4 then [5, 6, 7, 8] else [] {
    }
  }

  /** In a tree-shaped graph, a node that is one earlier node's child gets
      that node, and only it, as parent. */
  lemma OnlyParent(m: map<nat, Node>, c: nat, n: nat, p: nat)
    requires TreeShaped(m)
    requires p < n && p in m && c in ChildrenOf(m[p])
    ensures PushedParents(m, c, n) == [p]
  {
    AtMostOneParent(m, c, n);
    PushedParentsIff(m, c, n);
    var s := PushedParents(m, c, n);
    assert p in s;
    assert s[0] in s;
  }

  /** A node nobody lists as a child gets no parent. */
  lemma NoParent(m: map<nat, Node>, c: nat, n: nat)
    requires forall p :: p in m ==> c !in ChildrenOf(m[p])
    ensures PushedParents(m, c, n) == []
  {
    PushedParentsIff(m, c, n);
  }
}
