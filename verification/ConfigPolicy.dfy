/** The budgeted check of a parsed YAML tree, and the scan of the two settings it makes unambiguous. */
module ConfigPolicy {

  const BUDGET := 10000
  const MAX_DEPTH := 64
  const FIXED_SOCKET := "/run/amg-rfid-gateway/gateway.sock"

  datatype Kind = Document | Mapping | Sequence | Scalar | Alias | Unset

  /** A nil node, or one with its kind, tag, scalar value and content; a mapping's alternates keys and values. */
  datatype Node = Nil | Node(kind: Kind, tag: string, value: string, content: seq<Node>)

  // ---- What is accepted --------------------------------------------------------------------

  predicate GoodKey(key: Node) {
    key.Node? && key.kind == Scalar && key.tag == "!!str" && key.value != "<<"
  }

  predicate GoodMapping(content: seq<Node>) {
    && |content| % 2 == 0
    && (forall i | 0 <= i < |content| / 2 :: GoodKey(content[2 * i]))
    && (forall i, j | 0 <= i < j < |content| / 2 && content[2 * i].Node? && content[2 * j].Node? ::
          content[2 * i].value != content[2 * j].value)
  }

  const SCALAR_TAGS := {"!!str", "!!int", "!!float", "!!bool", "!!null", "!!timestamp"}

  /** What is demanded of one node, whatever is below it. */
  predicate GoodNode(node: Node) {
    && node.Node?
    && match node.kind
       case Mapping => node.tag == "!!map" && GoodMapping(node.content)
       case Sequence => node.tag == "!!seq"
       case Scalar => node.tag in SCALAR_TAGS
       case _ => false
  }

  /** A node met on the way down, with its depth. */
  datatype Visit = Visit(node: Node, depth: nat)

  /** Every node of a tree except mapping keys, parents first. */
  function Visits(node: Node, depth: nat): (vs: seq<Visit>)
    ensures |vs| > 0
    decreases node, 0
  {
    [Visit(node, depth)] +
    if node.Node? && node.kind == Mapping then ValueVisits(node.content, depth + 1)
    else if node.Node? && node.kind == Sequence then ItemVisits(node.content, depth + 1)
    else []
  }

  function ItemVisits(items: seq<Node>, depth: nat): seq<Visit>
    decreases items, 1
  {
    if items == [] then [] else ItemVisits(items[..|items| - 1], depth) + Visits(items[|items| - 1], depth)
  }

  function ValueVisits(content: seq<Node>, depth: nat): seq<Visit>
    decreases content, 1
  {
    if |content| < 2 then []
    else
      var n := |content| / 2 * 2;
      ValueVisits(content[..n - 2], depth) + Visits(content[n - 1], depth)
  }

  predicate Good(visits: seq<Visit>) {
    forall v <- visits :: GoodNode(v.node) && v.depth <= MAX_DEPTH
  }

  /** Few enough, shallow, and each of them good. */
  predicate Fits(visits: seq<Visit>, budget: int) {
    |visits| <= budget && Good(visits)
  }

  lemma FitsInTurn(first: seq<Visit>, rest: seq<Visit>, budget: int)
    ensures Fits(first + rest, budget) <==> Fits(first, budget) && Fits(rest, budget - |first|)
  {
    assert Good(first + rest) <==> Good(first) && Good(rest) by {
      assert forall v <- first :: v in first + rest;
      assert forall v <- rest :: v in first + rest;
    }
  }

  lemma PrefixFits(prefix: seq<Visit>, visits: seq<Visit>, budget: int)
    requires prefix <= visits && Fits(visits, budget)
    ensures Fits(prefix, budget)
  {
    FitsInTurn(prefix, visits[|prefix|..], budget);
    assert prefix + visits[|prefix|..] == visits;
  }

  // ---- The same, by paths ------------------------------------------------------------------

  /** Following positions of values in mappings and of items in sequences leads from the root to this node. */
  predicate Reaches(root: Node, path: seq<nat>, node: Node)
    decreases |path|
  {
    if path == [] then root == node
    else
      && root.Node?
      && match root.kind
         case Mapping => 2 * path[0] + 1 < |root.content| && Reaches(root.content[2 * path[0] + 1], path[1..], node)
         case Sequence => path[0] < |root.content| && Reaches(root.content[path[0]], path[1..], node)
         case _ => false
  }

  lemma GoodConcat(a: seq<Visit>, b: seq<Visit>)
    ensures Good(a + b) <==> Good(a) && Good(b)
  {
    FitsInTurn(a, b, |a| + |b|);
  }

  /** All nodes of the subtrees of these are good. */
  predicate AllGood(nodes: seq<Node>, depth: nat) {
    forall k | 0 <= k < |nodes| :: Good(Visits(nodes[k], depth))
  }

  lemma AllGoodSnoc(nodes: seq<Node>, more: Node, depth: nat)
    ensures AllGood(nodes + [more], depth) <==> AllGood(nodes, depth) && Good(Visits(more, depth))
  {
    hide Good, Visits;
    var all := nodes + [more];
    assert all[|nodes|] == more;
    assert forall k | 0 <= k < |nodes| :: all[k] == nodes[k];
  }

  lemma {:induction false} GoodItems(items: seq<Node>, depth: nat)
    ensures Good(ItemVisits(items, depth)) <==> AllGood(items, depth)
  {
    hide Good, AllGood, Visits;
    if items == [] {
      GoodNothing(depth);
    } else {
      var n := |items| - 1;
      GoodItems(items[..n], depth);
      GoodConcat(ItemVisits(items[..n], depth), Visits(items[n], depth));
      AllGoodSnoc(items[..n], items[n], depth);
      assert items[..n] + [items[n]] == items;
    }
  }

  /** The values of a mapping. */
  function Values(content: seq<Node>): seq<Node> {
    seq(|content| / 2, k requires 0 <= k < |content| / 2 => content[2 * k + 1])
  }

  lemma {:induction false} GoodValues(content: seq<Node>, depth: nat)
    ensures Good(ValueVisits(content, depth)) <==> AllGood(Values(content), depth)
  {
    hide Good, AllGood, Visits;
    if |content| < 2 {
      GoodNothing(depth);
      assert Values(content) == [];
    } else {
      var n := |content| / 2 * 2;
      GoodValues(content[..n - 2], depth);
      GoodConcat(ValueVisits(content[..n - 2], depth), Visits(content[n - 1], depth));
      AllGoodSnoc(Values(content[..n - 2]), content[n - 1], depth);
      assert Values(content[..n - 2]) + [content[n - 1]] == Values(content);
    }
  }

  lemma GoodNothing(depth: nat)
    ensures Good([]) && AllGood([], depth)
  {
  }

  /** The children a visit goes on to. */
  function Children(node: Node): seq<Node> {
    if node.Nil? then []
    else match node.kind
      case Mapping => Values(node.content)
      case Sequence => node.content
      case _ => []
  }

  lemma GoodByChildren(node: Node, depth: nat)
    ensures Good(Visits(node, depth)) <==>
            GoodNode(node) && depth <= MAX_DEPTH && AllGood(Children(node), depth + 1)
  {
    hide Good, GoodNode, AllGood, ItemVisits, ValueVisits;
    var below :=
      if node.Node? && node.kind == Mapping then ValueVisits(node.content, depth + 1)
      else if node.Node? && node.kind == Sequence then ItemVisits(node.content, depth + 1)
      else [];
    GoodConcat([Visit(node, depth)], below);
    GoodAlone(node, depth);
    if node.Node? && node.kind == Mapping {
      GoodValues(node.content, depth + 1);
    } else if node.Node? && node.kind == Sequence {
      GoodItems(node.content, depth + 1);
    } else {
      GoodNothing(depth + 1);
    }
  }

  lemma GoodAlone(node: Node, depth: nat)
    ensures Good([Visit(node, depth)]) <==> GoodNode(node) && depth <= MAX_DEPTH
  {
    assert [Visit(node, depth)][0] in [Visit(node, depth)];
  }

  lemma ReachesByChildren(root: Node, path: seq<nat>, node: Node)
    requires path != []
    ensures Reaches(root, path, node) <==>
            path[0] < |Children(root)| && Reaches(Children(root)[path[0]], path[1..], node)
  {
  }

  lemma ChildIsSmaller(node: Node, k: nat)
    requires k < |Children(node)|
    ensures Children(node)[k] < node
  {
  }

  /** Every node that values and items lead to is good, at most 64 steps down. */
  ghost predicate AllReached(root: Node, depth: nat) {
    forall path, node | Reaches(root, path, node) :: GoodNode(node) && depth + |path| <= 64
  }

  /** All that is visited in a tree is good exactly when all that is reached is. */
  lemma {:induction false} GoodIffReached(root: Node, depth: nat)
    ensures Good(Visits(root, depth)) <==> AllReached(root, depth)
    decreases root
  {
    hide Good, GoodNode, AllReached, Children, Visits;
    GoodByChildren(root, depth);
    var children := Children(root);
    forall k | 0 <= k < |children|
      ensures Good(Visits(children[k], depth + 1)) <==> AllReached(children[k], depth + 1)
    {
      ChildIsSmaller(root, k);
      GoodIffReached(children[k], depth + 1);
    }
    if AllReached(root, depth) {
      ReachedBelow(root, depth);
    } else if forall k | 0 <= k < |children| :: AllReached(children[k], depth + 1) {
      ReachedAbove(root, depth);
    }
  }

  lemma ReachedBelow(root: Node, depth: nat)
    requires AllReached(root, depth)
    ensures GoodNode(root) && depth <= 64
    ensures forall k | 0 <= k < |Children(root)| :: AllReached(Children(root)[k], depth + 1)
  {
    hide GoodNode, Children;
    var none: seq<nat> := [];
    assert Reaches(root, none, root);
    assert depth + |none| == depth;
    forall k | 0 <= k < |Children(root)|
      ensures AllReached(Children(root)[k], depth + 1)
    {
      forall path, node | Reaches(Children(root)[k], path, node)
        ensures GoodNode(node) && depth + 1 + |path| <= 64
      {
        ReachedThrough(root, depth, k, path, node);
      }
    }
  }

  lemma ReachedThrough(root: Node, depth: nat, k: nat, path: seq<nat>, node: Node)
    requires AllReached(root, depth) && k < |Children(root)| && Reaches(Children(root)[k], path, node)
    ensures GoodNode(node) && depth + 1 + |path| <= 64
  {
    hide GoodNode, Children;
    var longer := [k] + path;
    assert longer[1..] == path;
    ReachesByChildren(root, longer, node);
    assert Reaches(root, longer, node);
  }

  lemma ReachedAbove(root: Node, depth: nat)
    requires forall k | 0 <= k < |Children(root)| :: AllReached(Children(root)[k], depth + 1)
    ensures GoodNode(root) && depth <= 64 ==> AllReached(root, depth)
  {
    hide GoodNode, Children;
    if GoodNode(root) && depth <= 64 {
      forall path, node | Reaches(root, path, node)
        ensures GoodNode(node) && depth + |path| <= 64
      {
        ReachedDown(root, path, node);
      }
    }
  }

  lemma ReachedDown(root: Node, path: seq<nat>, node: Node)
    requires Reaches(root, path, node)
    ensures path == [] ==> node == root
    ensures path != [] ==> path[0] < |Children(root)| && Reaches(Children(root)[path[0]], path[1..], node)
  {
    if path != [] {
      ReachesByChildren(root, path, node);
    }
  }

  /** What is good, node by node. */
  lemma GoodNodeSpelled(node: Node)
    ensures GoodNode(node) <==>
            && node.Node?
            && ((node.kind == Scalar && node.tag in {"!!str", "!!int", "!!float", "!!bool", "!!null", "!!timestamp"})
                || (node.kind == Sequence && node.tag == "!!seq")
                || (node.kind == Mapping && node.tag == "!!map" && |node.content| % 2 == 0
                    && (forall i | 0 <= i < |node.content| && i % 2 == 0 ::
                          && node.content[i].Node? && node.content[i].kind == Scalar
                          && node.content[i].tag == "!!str" && node.content[i].value != "<<")
                    && (forall i, j | 0 <= i < j < |node.content| && i % 2 == 0 && j % 2 == 0 ::
                          node.content[i].value != node.content[j].value)))
  {
    if node.Node? && node.kind == Mapping && |node.content| % 2 == 0 {
      KeysSpelled(node.content);
    }
  }

  lemma KeysSpelled(content: seq<Node>)
    requires |content| % 2 == 0
    ensures GoodMapping(content) <==>
            && (forall i | 0 <= i < |content| && i % 2 == 0 ::
                  && content[i].Node? && content[i].kind == Scalar
                  && content[i].tag == "!!str" && content[i].value != "<<")
            && (forall i, j | 0 <= i < j < |content| && i % 2 == 0 && j % 2 == 0 ::
                  content[i].value != content[j].value)
  {
    assert forall i | 0 <= i < |content| && i % 2 == 0 :: i == 2 * (i / 2) && content[i] == content[2 * (i / 2)];
  }

  /** The nodes of a tree are counted one by one, keys aside. */
  lemma ItemsCounted(tag: string, value: string, content: seq<Node>, more: Node, depth: nat)
    ensures |Visits(Node(Sequence, tag, value, []), depth)| == 1
    ensures |Visits(Node(Sequence, tag, value, content + [more]), depth)| ==
            |Visits(Node(Sequence, tag, value, content), depth)| + |Visits(more, depth + 1)|
  {
    assert (content + [more])[..|content|] == content;
  }

  lemma EntriesCounted(tag: string, value: string, content: seq<Node>, key: Node, more: Node, depth: nat)
    requires |content| % 2 == 0
    ensures |Visits(Node(Mapping, tag, value, []), depth)| == 1
    ensures |Visits(Node(Mapping, tag, value, content + [key, more]), depth)| ==
            |Visits(Node(Mapping, tag, value, content), depth)| + |Visits(more, depth + 1)|
  {
    var whole := content + [key, more];
    assert whole[..|content|] == content && |whole| / 2 * 2 == |whole| && whole[|whole| - 1] == more;
  }

  lemma LeavesCounted(tag: string, value: string, content: seq<Node>, depth: nat)
    ensures |Visits(Nil, depth)| == |Visits(Node(Scalar, tag, value, content), depth)| == 1
    ensures BUDGET == 10000
  {
  }

  // ---- The check ---------------------------------------------------------------------------

  /** The counter every call of the check shares. */
  class Budget {
    var left: int

    constructor (left: int)
      ensures this.left == left
    {
      this.left := left;
    }
  }

  method ValidPolicyNode(node: Node, depth: nat, budget: Budget) returns (ok: bool)
    modifies budget
    ensures ok <==> Fits(Visits(node, depth), old(budget.left))
    ensures ok ==> budget.left == old(budget.left) - |Visits(node, depth)|
    decreases node, 0
  {
    budget.left := budget.left - 1;
    ghost var all, below := Visits(node, depth), Visits(node, depth)[1..];
    assert all == [Visit(node, depth)] + below;
    FitsInTurn([Visit(node, depth)], below, old(budget.left));
    assert Good([Visit(node, depth)]) <==> GoodNode(node) && depth <= MAX_DEPTH by {
      assert [Visit(node, depth)][0] in [Visit(node, depth)];
    }
    assert Good([]);
    hide Good;
    if budget.left < 0 || depth > MAX_DEPTH || node.Nil? || node.kind == Alias {
      return false;
    }
    match node.kind
    case Mapping =>
      if node.tag != "!!map" || |node.content| % 2 != 0 {
        return false;
      }
      assert below == ValueVisits(node.content, depth + 1);
      ok := ValidMapping(node.content, depth + 1, budget);
    case Sequence =>
      if node.tag != "!!seq" {
        return false;
      }
      assert below == ItemVisits(node.content, depth + 1);
      ok := ValidSequence(node.content, depth + 1, budget);
    case Scalar =>
      ok := node.tag in SCALAR_TAGS;
      assert below == [];
    case _ =>
      ok := false;
  }

  method ValidMapping(content: seq<Node>, depth: nat, budget: Budget) returns (ok: bool)
    requires |content| % 2 == 0 && budget.left >= 0
    modifies budget
    ensures ok <==> GoodMapping(content) && Fits(ValueVisits(content, depth), old(budget.left))
    ensures ok ==> budget.left == old(budget.left) - |ValueVisits(content, depth)|
    decreases content, 1
  {
    hide GoodMapping, GoodKey, Good, ValueVisits, Visits;
    var seen: set<string> := {};
    var i := 0;
    NothingYet(content, depth);
    while i < |content|
      invariant 0 <= i <= |content| && i % 2 == 0
      invariant GoodMapping(content[..i]) && seen == Keys(content[..i])
      invariant Fits(ValueVisits(content[..i], depth), old(budget.left))
      invariant budget.left == old(budget.left) - |ValueVisits(content[..i], depth)|
    {
      var key := content[i];
      KeyStep(content, i);
      if !GoodKey(key) || key.value in seen {
        return false;
      }
      seen := seen + {key.value};
      var good := ValidPolicyNode(content[i + 1], depth, budget);
      ValueStep(content, i, depth);
      FitsInTurn(ValueVisits(content[..i], depth), Visits(content[i + 1], depth), old(budget.left));
      if !good {
        ValuePrefix(content, i + 2, depth);
        if Fits(ValueVisits(content, depth), old(budget.left)) {
          PrefixFits(ValueVisits(content[..i + 2], depth), ValueVisits(content, depth), old(budget.left));
          assert false;
        }
        return false;
      }
      i := i + 2;
    }
    assert content[..i] == content;
    ok := true;
  }

  method ValidSequence(items: seq<Node>, depth: nat, budget: Budget) returns (ok: bool)
    requires budget.left >= 0
    modifies budget
    ensures ok <==> Fits(ItemVisits(items, depth), old(budget.left))
    ensures ok ==> budget.left == old(budget.left) - |ItemVisits(items, depth)|
    decreases items, 1
  {
    assert Fits([], budget.left);
    hide Good, Visits;
    for i := 0 to |items|
      invariant Fits(ItemVisits(items[..i], depth), old(budget.left))
      invariant budget.left == old(budget.left) - |ItemVisits(items[..i], depth)|
    {
      var good := ValidPolicyNode(items[i], depth, budget);
      assert items[..i + 1][..i] == items[..i];
      FitsInTurn(ItemVisits(items[..i], depth), Visits(items[i], depth), old(budget.left));
      if !good {
        ItemPrefix(items, i + 1, depth);
        if Fits(ItemVisits(items, depth), old(budget.left)) {
          PrefixFits(ItemVisits(items[..i + 1], depth), ItemVisits(items, depth), old(budget.left));
          assert false;
        }
        return false;
      }
    }
    assert items[..|items|] == items;
    ok := true;
  }

  // ---- Steps of the check ------------------------------------------------------------------

  /** The keys of the first entries. */
  function Keys(content: seq<Node>): (ks: set<string>) {
    set j | 0 <= j < |content| / 2 && content[2 * j].Node? :: content[2 * j].value
  }

  lemma NothingYet(content: seq<Node>, depth: nat)
    ensures content[..0] == [] && GoodMapping([]) && Keys([]) == {}
    ensures ValueVisits([], depth) == [] && Good([])
  {}

  /** The next key either extends a good mapping or spoils the whole of it. */
  lemma KeyStep(content: seq<Node>, i: nat)
    requires i + 1 < |content| && i % 2 == 0 && |content| % 2 == 0
    requires GoodMapping(content[..i])
    ensures !GoodKey(content[i]) || content[i].value in Keys(content[..i]) ==> !GoodMapping(content)
    ensures GoodKey(content[i]) && content[i].value !in Keys(content[..i]) ==>
              GoodMapping(content[..i + 2]) && Keys(content[..i + 2]) == Keys(content[..i]) + {content[i].value}
    ensures GoodKey(content[i]) ==> content[i].Node?
  {
    ghost var next := content[..i + 2];
    var n := i / 2;
    assert 2 * n == i && |next| / 2 == n + 1;
    assert forall j | 0 <= j < n :: next[2 * j] == content[2 * j] == content[..i][2 * j];
    assert next[2 * n] == content[2 * n] == content[i];
    if GoodKey(content[i]) && content[i].value !in Keys(content[..i]) {
      forall a, b | 0 <= a < b < |next| / 2 && next[2 * a].Node? && next[2 * b].Node?
        ensures next[2 * a].value != next[2 * b].value
      {
        assert next[2 * a].value in Keys(content[..i]);
        if b < n {
          assert content[..i][2 * a].value != content[..i][2 * b].value;
        }
      }
      forall j | 0 <= j < |next| / 2 ensures GoodKey(next[2 * j]) {
        if j < n { assert GoodKey(content[..i][2 * j]); }
      }
      assert Keys(next) == Keys(content[..i]) + {content[i].value} by {
        assert next[2 * n].value in Keys(next);
        forall k | k in Keys(content[..i]) ensures k in Keys(next) {
          var j :| 0 <= j < n && content[..i][2 * j].Node? && content[..i][2 * j].value == k;
          assert next[2 * j].value == k;
        }
      }
    }
  }

  lemma ValueStep(content: seq<Node>, i: nat, depth: nat)
    requires i + 1 < |content| && i % 2 == 0
    ensures ValueVisits(content[..i + 2], depth) == ValueVisits(content[..i], depth) + Visits(content[i + 1], depth)
  {
    assert content[..i + 2][..i] == content[..i];
  }

  /** What the check has gone through is the beginning of what there is. */
  lemma {:induction false} ValuePrefix(content: seq<Node>, i: nat, depth: nat)
    requires i <= |content| && i % 2 == 0 && |content| % 2 == 0
    ensures ValueVisits(content[..i], depth) <= ValueVisits(content, depth)
    decreases |content| - i
  {
    hide ValueVisits, Visits;
    if i == |content| {
      assert content[..i] == content;
    } else {
      ValueStep(content, i, depth);
      ValuePrefix(content, i + 2, depth);
    }
  }

  lemma {:induction false} ItemPrefix(items: seq<Node>, i: nat, depth: nat)
    requires i <= |items|
    ensures ItemVisits(items[..i], depth) <= ItemVisits(items, depth)
    decreases |items| - i
  {
    if i == |items| {
      assert items[..i] == items;
    } else {
      assert items[..i + 1][..i] == items[..i];
      ItemPrefix(items, i + 1, depth);
    }
  }

  // ---- The comparison ----------------------------------------------------------------------

  datatype Policy = Policy(code: string, dataEqual: bool, socketEqual: bool)

  function Refuse(code: string): Policy {
    Policy(code, false, false)
  }

  /** The value node is a string. */
  predicate IsString(node: Node, value: string) {
    node.Node? && node.kind == Scalar && node.tag == "!!str" && node.value == value
  }

  /** The mapping gives the string `value` to `key`. */
  predicate Binds(content: seq<Node>, key: string, value: string) {
    exists i | 0 <= i < |content| / 2 ::
      content[2 * i].Node? && content[2 * i].value == key && IsString(content[2 * i + 1], value)
  }

  lemma BindsSpelled(content: seq<Node>, key: string, value: string)
    ensures Binds(content, key, value) <==>
            exists i | 0 <= i < |content| - 1 && i % 2 == 0 ::
              && content[i].Node? && content[i].value == key && content[i + 1].Node?
              && content[i + 1].kind == Scalar && content[i + 1].tag == "!!str" && content[i + 1].value == value
  {
    if i :| 0 <= i < |content| - 1 && i % 2 == 0 && content[i].Node? && content[i].value == key &&
            IsString(content[i + 1], value) {
      assert content[2 * (i / 2)] == content[i] && content[2 * (i / 2) + 1] == content[i + 1];
    }
    if j :| 0 <= j < |content| / 2 && content[2 * j].Node? && content[2 * j].value == key &&
            IsString(content[2 * j + 1], value) {
      assert 2 * j % 2 == 0;
    }
  }

  /** One acceptable mapping at the root. */
  predicate Sound(parsed: Node) {
    && parsed.Node? && |parsed.content| == 1
    && parsed.content[0].Node? && parsed.content[0].kind == Mapping
    && Fits(Visits(parsed.content[0], 0), BUDGET)
  }

  lemma SoundSpelled(parsed: Node)
    ensures Sound(parsed) <==>
            && parsed.Node? && |parsed.content| == 1
            && parsed.content[0].Node? && parsed.content[0].kind == Mapping
            && |Visits(parsed.content[0], 0)| <= 10000
            && AllReached(parsed.content[0], 0)
  {
    hide Good, AllReached, Visits;
    if parsed.Node? && |parsed.content| == 1 {
      GoodIffReached(parsed.content[0], 0);
    }
  }

  /** The root of a sound document. */
  lemma SoundRoot(root: Node)
    requires root.Node? && root.kind == Mapping && Fits(Visits(root, 0), BUDGET)
    ensures GoodMapping(root.content)
  {
    var visits := Visits(root, 0);
    assert visits[0] == Visit(root, 0) && visits[0] in visits;
  }

  /** After some entries, `found` is the binding of `key` if it has been seen. */
  ghost predicate Scanned(content: seq<Node>, key: string, found: string) {
    forall value :: Binds(content, key, value) <==> key in Keys(content) && value == found
  }

  lemma BindsStep(content: seq<Node>, i: nat, key: string, value: string)
    requires i + 1 < |content| && i % 2 == 0 && content[i].Node?
    ensures Binds(content[..i + 2], key, value) <==>
            Binds(content[..i], key, value) || (content[i].value == key && IsString(content[i + 1], value))
  {
    var n, next := i / 2, content[..i + 2];
    assert 2 * n == i && next[2 * n] == content[i] && next[2 * n + 1] == content[i + 1];
    if Binds(content[..i], key, value) {
      var j :| 0 <= j < n && content[..i][2 * j].Node? && content[..i][2 * j].value == key &&
               IsString(content[..i][2 * j + 1], value);
      assert next[2 * j] == content[..i][2 * j];
    }
    if Binds(next, key, value) {
      var j :| 0 <= j < n + 1 && next[2 * j].Node? && next[2 * j].value == key && IsString(next[2 * j + 1], value);
      if j < n {
        assert content[..i][2 * j] == next[2 * j];
      }
    }
  }

  /** In a good mapping an entry is the only one with its key. */
  lemma OnlyBinding(content: seq<Node>, i: nat, value: string)
    requires i + 1 < |content| && i % 2 == 0 && GoodMapping(content) && content[i].Node?
    requires Binds(content, content[i].value, value)
    ensures IsString(content[i + 1], value)
  {
    var j :| 0 <= j < |content| / 2 && content[2 * j].Node? && content[2 * j].value == content[i].value &&
             IsString(content[2 * j + 1], value);
    assert content[2 * (i / 2)] == content[i];
  }

  lemma GoodPrefix(content: seq<Node>, i: nat)
    requires i <= |content| && i % 2 == 0 && GoodMapping(content)
    ensures GoodMapping(content[..i])
  {
    forall j | 0 <= j < i / 2 ensures GoodKey(content[..i][2 * j]) {
      assert content[..i][2 * j] == content[2 * j];
    }
  }

  /** From the parsed document on. A nil document stands for bytes that do not parse. */
  method ObserveConfigPolicy(parsed: Node, data: string) returns (policy: Policy)
    ensures policy == Refuse("invalid_config") <==>
            !(Sound(parsed) && (exists value :: Binds(parsed.content[0].content, "data_path", value)) &&
              (exists value :: Binds(parsed.content[0].content, "socket_path", value)))
    ensures policy != Refuse("invalid_config") ==>
            && (policy.dataEqual <==> Binds(parsed.content[0].content, "data_path", data))
            && (policy.socketEqual <==>
                  Binds(parsed.content[0].content, "socket_path", "/run/amg-rfid-gateway/gateway.sock"))
            && policy.code == if policy.dataEqual && policy.socketEqual then "config_policy_equal"
                              else "config_policy_mismatch"
  {
    if parsed.Nil? || |parsed.content| != 1 || parsed.content[0].Nil? || parsed.content[0].kind != Mapping {
      return Refuse("invalid_config");
    }
    var root := parsed.content[0];
    var budget := new Budget(BUDGET);
    var ok := ValidPolicyNode(root, 0, budget);
    if !ok {
      return Refuse("invalid_config");
    }
    SoundRoot(root);
    hide Sound, Fits, Visits;
    var found, dp, sp := ScanMapping(root.content);
    if !found {
      return Refuse("invalid_config");
    }
    policy := Policy("config_policy_mismatch", dp == data, sp == FIXED_SOCKET);
    if policy.dataEqual && policy.socketEqual {
      policy := policy.(code := "config_policy_equal");
    }
  }

  /** Of a mapping that was accepted, a duplicate key cannot come up again. */
  method ScanMapping(mapping: seq<Node>) returns (found: bool, dp: string, sp: string)
    requires GoodMapping(mapping)
    ensures found <==> (exists value :: Binds(mapping, "data_path", value)) &&
                       (exists value :: Binds(mapping, "socket_path", value))
    ensures found ==> forall value :: (Binds(mapping, "data_path", value) <==> value == dp) &&
                                      (Binds(mapping, "socket_path", value) <==> value == sp)
  {
    dp, sp := "", "";
    var seen: set<string> := {};
    var i := 0;
    while i < |mapping|
      invariant 0 <= i <= |mapping| && i % 2 == 0
      invariant seen == Keys(mapping[..i])
      invariant Scanned(mapping[..i], "data_path", dp) && Scanned(mapping[..i], "socket_path", sp)
    {
      var key, val := mapping[i], mapping[i + 1];
      GoodPrefix(mapping, i);
      KeyStep(mapping, i);
      assert GoodKey(key) by { assert mapping[2 * (i / 2)] == key; }
      ghost var dpBefore, spBefore := dp, sp;
      if key.value in seen {
        assert false;
      }
      seen := seen + {key.value};
      if key.value == "data_path" || key.value == "socket_path" {
        if val.Nil? || val.kind != Scalar || val.tag != "!!str" {
          forall value ensures !Binds(mapping, key.value, value) {
            if Binds(mapping, key.value, value) {
              OnlyBinding(mapping, i, value);
            }
          }
          return false, dp, sp;
        }
        if key.value == "data_path" {
          dp := val.value;
        } else {
          sp := val.value;
        }
      }
      ScanStep(mapping, i, "data_path", dpBefore, dp);
      ScanStep(mapping, i, "socket_path", spBefore, sp);
      i := i + 2;
    }
    assert mapping[..i] == mapping;
    found := "data_path" in seen && "socket_path" in seen;
    assert found ==> Binds(mapping, "data_path", dp) && Binds(mapping, "socket_path", sp);
  }

  lemma ScanStep(content: seq<Node>, i: nat, key: string, before: string, after: string)
    requires i + 1 < |content| && i % 2 == 0 && content[i].Node?
    requires content[i].value !in Keys(content[..i]) && Scanned(content[..i], key, before)
    requires Keys(content[..i + 2]) == Keys(content[..i]) + {content[i].value}
    requires if content[i].value == key then IsString(content[i + 1], after) else after == before
    ensures Scanned(content[..i + 2], key, after)
  {
    var next := content[..i + 2];
    forall value
      ensures Binds(next, key, value) <==> key in Keys(next) && value == after
    {
      BindsStep(content, i, key, value);
    }
  }
}
