/**
  The compiled index of a schema: build_search_tree in
  tools/unitrace/scripts/summary/categorize.py and search_tree in
  tools/unitrace/scripts/summary/summary.py.
 */
module SearchTree {
  import opened Prelude
  import opened SchemaRules

  /** A dictionary with optional keys 'category' and 'length'; only a Branch has the key 'next'. */
  datatype Node =
    | Plain(category: Option<string>, length: Option<nat>)
    | Branch(category: Option<string>, length: Option<nat>, next: map<string, Node>)

  /** Outcome of a lookup; KeyError is the exception raised by next_nodes['']['category']. */
  datatype Lookup = Found(category: Option<string>) | KeyError

  /** Outcome of a build; `min` raises ValueError on an empty rule list. */
  datatype Built = Tree(root: Node) | ValueError

  // ------------------------------------------------------------------
  // Splitting a rule list
  // ------------------------------------------------------------------

  /** Total tag length. */
  function Size(rules: seq<Rule>): nat {
    if rules == [] then 0 else Size(rules[..|rules| - 1]) + |rules[|rules| - 1].tag|
  }

  function MinLength(rules: seq<Rule>): (k: nat)
    requires rules != []
    ensures forall r <- rules :: k <= |r.tag|
    ensures exists r <- rules :: |r.tag| == k
  {
    var init, last := rules[..|rules| - 1], rules[|rules| - 1];
    assert rules == init + [last];
    if init == [] then assert last in rules; |last.tag|
    else
      var m := MinLength(init);
      assert forall r :: r in init ==> r in rules;
      if |last.tag| <= m then assert last in rules; |last.tag| else m
  }

  /** The rules whose tag strictly extends `key`, with `key` cut off, in order. */
  function Tails(rules: seq<Rule>, key: string): (tails: seq<Rule>)
    ensures NonEmptyTags(tails)
  {
    if rules == [] then []
    else
      var last := rules[|rules| - 1];
      Tails(rules[..|rules| - 1], key) +
      if key < last.tag then [Rule(last.tag[|key|..], last.category, last.exact)] else []
  }

  lemma {:induction false} TailsShrink(rules: seq<Rule>, key: string)
    requires key != ""
    ensures Size(Tails(rules, key)) + |Tails(rules, key)| <= Size(rules)
  {
    if rules == [] {
    } else {
      var init, last := rules[..|rules| - 1], rules[|rules| - 1];
      TailsShrink(init, key);
      if key < last.tag {
        var t := Tails(rules, key);
        assert t[..|t| - 1] == Tails(init, key);
      } else {
        assert Tails(rules, key) == Tails(init, key);
      }
    }
  }

  lemma {:induction false} TailsSmaller(rules: seq<Rule>, key: string)
    requires key != "" && Tails(rules, key) != []
    ensures Size(Tails(rules, key)) < Size(rules)
  {
    TailsShrink(rules, key);
  }

  /** What the rules say about key + t is what the tails of key say about t. */
  lemma {:induction false} EffectiveTails(rules: seq<Rule>, key: string, t: string)
    requires t != ""
    ensures Effective(Tails(rules, key), t) == Effective(rules, key + t)
  {
    if rules == [] {
    } else {
      var init, last := rules[..|rules| - 1], rules[|rules| - 1];
      EffectiveTails(init, key, t);
      var tails := Tails(rules, key);
      if key < last.tag {
        assert tails[..|tails| - 1] == Tails(init, key);
        assert last.tag == key + last.tag[|key|..];
        assert (key + t)[|key|..] == t;
      } else {
        assert tails == Tails(init, key);
        assert key < key + t;
      }
    }
  }

  /** Tails is empty exactly when no tag strictly extends the key. */
  lemma {:induction false} TailsNonEmpty(rules: seq<Rule>, key: string)
    ensures Tails(rules, key) != [] <==> HasLongerTag(rules, key)
  {
    if rules == [] {
    } else {
      var init, last := rules[..|rules| - 1], rules[|rules| - 1];
      assert rules == init + [last];
      TailsNonEmpty(init, key);
    }
  }

  // ------------------------------------------------------------------
  // The tree a rule list stands for
  // ------------------------------------------------------------------

  function Keys(rules: seq<Rule>, k: nat): set<string>
    requires forall r <- rules :: k <= |r.tag|
  {
    set r | r in rules :: r.tag[..k]
  }

  function Leaf(category: string): Node {
    Plain(Some(category), None)
  }

  /** The node of a key: its own rule, if any, on top of the subtree of the longer tags, if any. */
  function Attach(own: Option<Verdict>, sub: Option<Node>): Node {
    var base := if sub.Some? then sub.value else Plain(None, None);
    match own
    case None => base
    case Some(Verdict(c, false)) => base.(category := Some(c))
    case Some(Verdict(c, true)) =>
      Branch(base.category, base.length, (if base.Branch? then base.next else map[])["" := Leaf(c)])
  }

  function TreeOf(rules: seq<Rule>): (tree: Node)
    requires rules != [] && NonEmptyTags(rules)
    ensures tree.Branch? && tree.category == None && tree.length == Some(MinLength(rules))
    ensures tree.next.Keys == Keys(rules, MinLength(rules))
    decreases Size(rules), 1
  {
    var k := MinLength(rules);
    Branch(None, Some(k), map key | key in Keys(rules, k) :: Child(rules, key))
  }

  function Child(rules: seq<Rule>, key: string): Node
    requires key != "" && NonEmptyTags(rules)
    decreases Size(rules), 0
  {
    var deeper := Tails(rules, key);
    if deeper == [] then Attach(Effective(rules, key), None)
    else
      TailsSmaller(rules, key);
      Attach(Effective(rules, key), Some(TreeOf(deeper)))
  }

  // ------------------------------------------------------------------
  // build_search_tree
  // ------------------------------------------------------------------

  /** dict.update on the node level, after the 'next' dictionaries have been merged. */
  function Merge(node: Node, sub: Node): Node {
    var category := if sub.category.Some? then sub.category else node.category;
    var length := if sub.length.Some? then sub.length else node.length;
    if node.Branch? && sub.Branch? then Branch(category, length, sub.next + node.next)
    else if sub.Branch? then Branch(category, length, sub.next)
    else if node.Branch? then Branch(category, length, node.next)
    else Plain(category, length)
  }

  /** Merging the subtree into a key's own node gives the node of the key. */
  lemma MergeAttaches(own: Verdict, sub: Node)
    requires sub.category == None && sub.Branch?
    ensures Merge(Attach(Some(own), None), sub) == Attach(Some(own), Some(sub))
  {
    if own.exact {
      assert map[]["" := Leaf(own.category)] == map["" := Leaf(own.category)];
      assert sub.next + map["" := Leaf(own.category)] == sub.next["" := Leaf(own.category)];
    }
  }

  /** A key of stride k heads some rule iff it is a tag itself or some tag strictly extends it. */
  lemma KeysCovered(rules: seq<Rule>, k: nat, key: string)
    requires forall r <- rules :: k <= |r.tag|
    ensures key in Keys(rules, k) <==>
              |key| == k && (Effective(rules, key).Some? || Tails(rules, key) != [])
  {
    EffectiveIsMembership(rules, key);
    TailsNonEmpty(rules, key);
    if key in Keys(rules, k) {
      var r :| r in rules && r.tag[..k] == key;
      assert r.tag == key || key < r.tag;
    }
    if |key| == k && exists r <- rules :: r.tag == key || key < r.tag {
      var r :| r in rules && (r.tag == key || key < r.tag);
      assert r.tag[..k] == key;
    }
  }

  ghost predicate OwnNodes(nodes: map<string, Node>, rules: seq<Rule>, k: nat) {
    && (forall key :: key in nodes <==> |key| == k && Effective(rules, key).Some?)
    && (forall key <- nodes :: nodes[key] == Attach(Effective(rules, key), None))
  }

  ghost predicate TagGroups(groups: map<string, seq<Rule>>, rules: seq<Rule>, k: nat) {
    && (forall key :: key in groups <==> |key| == k && Tails(rules, key) != [])
    && (forall key <- groups :: groups[key] == Tails(rules, key))
  }

  lemma EffectiveSnoc(rules: seq<Rule>, r: Rule, text: string)
    ensures Effective(rules + [r], text) ==
            if r.tag == text then Some(Verdict(r.category, r.exact)) else Effective(rules, text)
  {
    assert (rules + [r])[..|rules|] == rules;
  }

  lemma TailsSnoc(rules: seq<Rule>, r: Rule, key: string)
    ensures Tails(rules + [r], key) ==
            Tails(rules, key) + if key < r.tag then [Rule(r.tag[|key|..], r.category, r.exact)] else []
  {
    assert (rules + [r])[..|rules|] == rules;
  }

  /** Filing a rule that ends at this stride under its own key. */
  lemma FileOwn(nodes: map<string, Node>, rules: seq<Rule>, r: Rule, k: nat)
    requires OwnNodes(nodes, rules, k) && |r.tag| == k
    ensures OwnNodes(nodes[r.tag := Attach(Some(Verdict(r.category, r.exact)), None)], rules + [r], k)
  {
    forall key: string ensures Effective(rules + [r], key) ==
      if r.tag == key then Some(Verdict(r.category, r.exact)) else Effective(rules, key)
    {
      EffectiveSnoc(rules, r, key);
    }
  }

  lemma SkipOwn(nodes: map<string, Node>, rules: seq<Rule>, r: Rule, k: nat)
    requires OwnNodes(nodes, rules, k) && |r.tag| != k
    ensures OwnNodes(nodes, rules + [r], k)
  {
    forall key | |key| == k ensures Effective(rules + [r], key) == Effective(rules, key) {
      EffectiveSnoc(rules, r, key);
    }
  }

  /** Filing a rule that goes on past this stride in its key's group. */
  lemma FileLonger(groups: map<string, seq<Rule>>, rules: seq<Rule>, r: Rule, k: nat)
    requires TagGroups(groups, rules, k) && |r.tag| > k
    ensures var key := r.tag[..k];
            var group := if key in groups then groups[key] else [];
            TagGroups(groups[key := group + [Rule(r.tag[k..], r.category, r.exact)]], rules + [r], k)
  {
    forall key | |key| == k
      ensures Tails(rules + [r], key) ==
              if key == r.tag[..k] then Tails(rules, key) + [Rule(r.tag[k..], r.category, r.exact)]
              else Tails(rules, key)
    {
      TailsOfKey(rules, r, k, key);
    }
  }

  lemma TailsOfKey(rules: seq<Rule>, r: Rule, k: nat, key: string)
    requires |key| == k < |r.tag|
    ensures Tails(rules + [r], key) ==
            if key == r.tag[..k] then Tails(rules, key) + [Rule(r.tag[k..], r.category, r.exact)]
            else Tails(rules, key)
  {
    TailsSnoc(rules, r, key);
    assert key < r.tag <==> key == r.tag[..k];
  }

  lemma SkipLonger(groups: map<string, seq<Rule>>, rules: seq<Rule>, r: Rule, k: nat)
    requires TagGroups(groups, rules, k) && |r.tag| == k
    ensures TagGroups(groups, rules + [r], k)
  {
    forall key | |key| == k ensures Tails(rules + [r], key) == Tails(rules, key) {
      TailsSnoc(rules, r, key);
    }
  }

  ghost predicate Grafted(nodes: map<string, Node>, own: map<string, Node>, done: set<string>, rules: seq<Rule>)
    requires NonEmptyTags(rules)
  {
    && nodes.Keys == own.Keys + done
    && (forall key <- done :: key != "" && nodes[key] == Child(rules, key))
    && (forall key <- own.Keys - done :: nodes[key] == own[key])
  }

  /** A group's subtree, merged into the key's own node when there is one, is the node of the key. */
  lemma {:induction false} GraftIsChild(rules: seq<Rule>, key: string)
    requires key != "" && NonEmptyTags(rules) && Tails(rules, key) != []
    ensures var sub := TreeOf(Tails(rules, key));
            var own := Effective(rules, key);
            Child(rules, key) == if own.Some? then Merge(Attach(own, None), sub) else sub
  {
    TailsSmaller(rules, key);
    var sub := TreeOf(Tails(rules, key));
    assert Child(rules, key) == Attach(Effective(rules, key), Some(sub));
    if Effective(rules, key).Some? {
      MergeAttaches(Effective(rules, key).value, sub);
    }
  }

  lemma GraftOne(nodes: map<string, Node>, own: map<string, Node>, done: set<string>, rules: seq<Rule>,
                 key: string, node: Node)
    requires NonEmptyTags(rules) && Grafted(nodes, own, done, rules)
    requires key != "" && node == Child(rules, key)
    ensures Grafted(nodes[key := node], own, done + {key}, rules)
  {
    var nodes', done' := nodes[key := node], done + {key};
    forall other | other in own.Keys - done' ensures nodes'[other] == own[other] {
      assert other in own.Keys - done && other != key;
    }
    forall other | other in done' ensures other != "" && nodes'[other] == Child(rules, other) {
      assert other in done || other == key;
    }
  }

  /** A key not yet grafted still has its own node exactly when it is a tag. */
  lemma NodeBeforeGraft(nodes: map<string, Node>, own: map<string, Node>, done: set<string>, rules: seq<Rule>,
                        k: nat, key: string)
    requires NonEmptyTags(rules) && OwnNodes(own, rules, k) && Grafted(nodes, own, done, rules)
    requires |key| == k && key !in done
    ensures key in nodes <==> Effective(rules, key).Some?
    ensures key in nodes ==> nodes[key] == Attach(Effective(rules, key), None)
  {
    assert key in nodes <==> key in own;
    if key in nodes {
      assert key in own.Keys - done;
    }
  }

  lemma NodeOfKey(rules: seq<Rule>, key: string)
    requires rules != [] && NonEmptyTags(rules) && key in Keys(rules, MinLength(rules))
    ensures key != "" && TreeOf(rules).next[key] == Child(rules, key)
  {}

  /** The dictionary that holds the node of every key is the one of the specified tree. */
  lemma ChildrenOf(nodes: map<string, Node>, rules: seq<Rule>)
    requires rules != [] && NonEmptyTags(rules)
    requires nodes.Keys == Keys(rules, MinLength(rules))
    requires forall key <- nodes :: key != "" && nodes[key] == Child(rules, key)
    ensures nodes == TreeOf(rules).next
  {
    var next := TreeOf(rules).next;
    assert nodes.Keys == next.Keys;
    forall key | key in nodes ensures nodes[key] == next[key] {
      NodeOfKey(rules, key);
    }
    MapsAgree(nodes, next);
  }

  lemma MapsAgree(a: map<string, Node>, b: map<string, Node>)
    requires a.Keys == b.Keys && forall key <- a :: a[key] == b[key]
    ensures a == b
  {}

  lemma GraftedAll(nodes: map<string, Node>, own: map<string, Node>, groups: map<string, seq<Rule>>, rules: seq<Rule>)
    requires rules != [] && NonEmptyTags(rules)
    requires OwnNodes(own, rules, MinLength(rules)) && TagGroups(groups, rules, MinLength(rules))
    requires Grafted(nodes, own, groups.Keys, rules)
    ensures nodes == TreeOf(rules).next
  {
    var k := MinLength(rules);
    forall key ensures key in nodes.Keys <==> key in Keys(rules, k) {
      KeysCovered(rules, k, key);
    }
    forall key | key in nodes ensures key != "" && nodes[key] == Child(rules, key) {
      if key !in groups {
        assert key in own.Keys - groups.Keys;
        assert Tails(rules, key) == [];
      }
    }
    ChildrenOf(nodes, rules);
  }

  lemma MoveOne<T>(all: set<T>, done: set<T>, pending: set<T>, x: T)
    requires done + pending == all && done !! pending && x in pending
    ensures (done + {x}) + (pending - {x}) == all && (done + {x}) !! (pending - {x})
  {}

  /** First loop of build_search_tree: file every rule under its key, the last entry of a tag winning. */
  method FileRules(rules: seq<Rule>, keyLength: nat)
    returns (nextNodes: map<string, Node>, nextTags: map<string, seq<Rule>>)
    requires forall r <- rules :: keyLength <= |r.tag|
    ensures OwnNodes(nextNodes, rules, keyLength)
    ensures TagGroups(nextTags, rules, keyLength)
  {
    nextNodes, nextTags := map[], map[];
    for i := 0 to |rules|
      invariant OwnNodes(nextNodes, rules[..i], keyLength)
      invariant TagGroups(nextTags, rules[..i], keyLength)
    {
      var Rule(tag, category, exact) := rules[i];
      assert rules[i] in rules;
      assert rules[..i + 1] == rules[..i] + [rules[i]];
      var key, nextTag := tag[..keyLength], tag[keyLength..];
      if nextTag != "" {
        SkipOwn(nextNodes, rules[..i], rules[i], keyLength);
        FileLonger(nextTags, rules[..i], rules[i], keyLength);
        var group := if key in nextTags then nextTags[key] else [];
        nextTags := nextTags[key := group + [Rule(nextTag, category, exact)]];
      } else {
        FileOwn(nextNodes, rules[..i], rules[i], keyLength);
        SkipLonger(nextTags, rules[..i], rules[i], keyLength);
        assert tag == key;
        if exact {
          nextNodes := nextNodes[key := Branch(None, None, map["" := Leaf(category)])];
        } else {
          nextNodes := nextNodes[key := Leaf(category)];
        }
      }
    }
    assert rules[..|rules|] == rules;
  }

  method BuildSearchTree(rules: seq<Rule>) returns (built: Built)
    requires NonEmptyTags(rules)
    ensures built == if rules == [] then ValueError else Tree(TreeOf(rules))
    decreases Size(rules)
  {
    if rules == [] {
      return ValueError;
    }
    var keyLength := MinLength(rules);
    var nextNodes, nextTags := FileRules(rules, keyLength);
    ghost var own, done := nextNodes, {};
    var pending := nextTags.Keys;
    while pending != {}
      invariant done + pending == nextTags.Keys && done !! pending
      invariant Grafted(nextNodes, own, done, rules)
    {
      var key :| key in pending;
      TailsSmaller(rules, key);
      var result := BuildSearchTree(nextTags[key]);
      var subTree := result.root;
      var node := if key in nextNodes then Merge(nextNodes[key], subTree) else subTree;
      assert node == Child(rules, key) by {
        NodeBeforeGraft(nextNodes, own, done, rules, keyLength, key);
        GraftIsChild(rules, key);
      }
      GraftOne(nextNodes, own, done, rules, key, node);
      nextNodes := nextNodes[key := node];
      MoveOne(nextTags.Keys, done, pending, key);
      pending, done := pending - {key}, done + {key};
    }
    assert done == nextTags.Keys;
    GraftedAll(nextNodes, own, nextTags, rules);
    return Tree(Branch(None, Some(keyLength), nextNodes));
  }

  // ------------------------------------------------------------------
  // search_tree
  // ------------------------------------------------------------------

  function Search(tree: Node, name: string, carried: Option<string>): Lookup
    decreases tree
  {
    var category := if tree.category.Some? then tree.category else carried;
    if name != "" then
      if tree.length == None || |name| < tree.length.value then Found(category)
      else if !tree.Branch? then KeyError
      else
        var key, rest := name[..tree.length.value], name[tree.length.value..];
        if key in tree.next then Search(tree.next[key], rest, category)
        else Found(category)
    else if !tree.Branch? then Found(category)
    else if "" !in tree.next || tree.next[""].category == None then KeyError
    else Found(tree.next[""].category)
  }

  method SearchTree(root: Node, name: string) returns (r: Lookup)
    ensures r == Search(root, name, None)
  {
    var category: Option<string> := None;
    var tree, tag := root, name;
    while true
      invariant Search(tree, tag, category) == Search(root, name, None)
      decreases tree
    {
      category := if tree.category.Some? then tree.category else category;
      if tag != "" {
        if tree.length == None {
          return Found(category);
        } else if |tag| < tree.length.value {
          return Found(category);
        } else if !tree.Branch? {
          return KeyError;
        } else {
          var key := tag[..tree.length.value];
          tag := tag[tree.length.value..];
          if key in tree.next {
            tree := tree.next[key];
          } else {
            return Found(category);
          }
        }
      } else if !tree.Branch? {
        return Found(category);
      } else if "" in tree.next && tree.next[""].category.Some? {
        return Found(tree.next[""].category);
      } else {
        return KeyError;
      }
    }
  }

  // ------------------------------------------------------------------
  // The index agrees with the rule list
  // ------------------------------------------------------------------

  /** The name ends where the index still has longer tags below: after some whole number of strides. */
  predicate EndsInside(rules: seq<Rule>, name: string)
    requires NonEmptyTags(rules)
    decreases |name|
  {
    rules != [] &&
    (name == "" ||
     (MinLength(rules) <= |name|
      && EndsInside(Tails(rules, name[..MinLength(rules)]), name[MinLength(rules)..])))
  }

  /** Exactly the names on which the lookup raises KeyError. */
  predicate LookupFails(rules: seq<Rule>, name: string)
    requires NonEmptyTags(rules)
  {
    EndsInside(rules, name) && !IsExactTag(rules, name)
  }

  function OrElse(first: Option<string>, second: Option<string>): Option<string> {
    if first.Some? then first else second
  }

  lemma {:induction false} NoShorterTag(rules: seq<Rule>, name: string, n: nat)
    requires rules != [] && NonEmptyTags(rules)
    requires n <= |name| && n < MinLength(rules)
    ensures PrefixCategory(rules, name, n) == None
    ensures Effective(rules, name[..n]) == None
  {
    EffectiveIsMembership(rules, name[..n]);
    if n == 0 {
    } else {
      NoShorterTag(rules, name, n - 1);
    }
  }

  /** The longest prefix tag lies beyond the first stride if the tails have one, else at the stride. */
  lemma {:induction false} PrefixCategorySplits(rules: seq<Rule>, name: string, k: nat, n: nat)
    requires rules != [] && NonEmptyTags(rules) && k == MinLength(rules)
    requires k <= n <= |name|
    ensures PrefixCategory(rules, name, n) ==
            OrElse(PrefixCategory(Tails(rules, name[..k]), name[k..], n - k),
                   if IsPrefixTag(rules, name[..k]) then Some(Effective(rules, name[..k]).value.category) else None)
  {
    var key, rest := name[..k], name[k..];
    var tails := Tails(rules, key);
    if n == k {
      EffectiveIsMembership(tails, rest[..0]);
      if k > 0 {
        NoShorterTag(rules, name, k - 1);
      }
    } else {
      EffectiveTails(rules, key, rest[..n - k]);
      assert key + rest[..n - k] == name[..n];
      PrefixCategorySplits(rules, name, k, n - 1);
    }
  }

  lemma AnswerSplits(rules: seq<Rule>, name: string, k: nat)
    requires rules != [] && NonEmptyTags(rules) && k == MinLength(rules) < |name|
    ensures IsExactTag(rules, name) == IsExactTag(Tails(rules, name[..k]), name[k..])
    ensures Answer(rules, name) ==
            OrElse(Answer(Tails(rules, name[..k]), name[k..]),
                   if IsPrefixTag(rules, name[..k]) then Some(Effective(rules, name[..k]).value.category) else None)
  {
    assert name[..k] + name[k..] == name;
    EffectiveTails(rules, name[..k], name[k..]);
    PrefixCategorySplits(rules, name, k, |name|);
  }

  lemma {:induction false} NoRulesNoAnswer(name: string, n: nat)
    requires n <= |name|
    ensures PrefixCategory([], name, n) == None
  {
    if n == 0 {
    } else {
      NoRulesNoAnswer(name, n - 1);
    }
  }

  /** What a lookup does on arriving at the node of a key. */
  lemma SearchAttached(own: Option<Verdict>, sub: Option<Node>, rest: string, carried: Option<string>)
    requires own.Some? || sub.Some?
    requires sub.Some? ==> var s := sub.value;
               s.Branch? && s.category == None && s.length.Some? && s.length.value > 0 && "" !in s.next
    ensures var r := Search(Attach(own, sub), rest, carried);
            var passed := if own.Some? && !own.value.exact then Some(own.value.category) else carried;
            if rest != "" then r == if sub.Some? then Search(sub.value, rest, passed) else Found(passed)
            else if sub == None || (own.Some? && own.value.exact) then r == Found(Some(own.value.category))
            else r == KeyError
  {}

  ghost predicate Agrees(rules: seq<Rule>, name: string, carried: Option<string>)
    requires rules != [] && NonEmptyTags(rules)
  {
    Search(TreeOf(rules), name, carried) ==
    if LookupFails(rules, name) then KeyError else Found(OrElse(Answer(rules, name), carried))
  }

  /** The name is shorter than the stride. */
  lemma AgreesShort(rules: seq<Rule>, name: string, carried: Option<string>)
    requires rules != [] && NonEmptyTags(rules) && |name| < MinLength(rules)
    ensures Agrees(rules, name, carried)
  {
    NoShorterTag(rules, name, |name|);
    assert name[..|name|] == name;
  }

  /** No rule starts with the name's key. */
  lemma AgreesUnknownKey(rules: seq<Rule>, name: string, carried: Option<string>)
    requires rules != [] && NonEmptyTags(rules) && MinLength(rules) <= |name|
    requires name[..MinLength(rules)] !in Keys(rules, MinLength(rules))
    ensures Agrees(rules, name, carried)
  {
    var k := MinLength(rules);
    var key, rest := name[..k], name[k..];
    KeysCovered(rules, k, key);
    assert Search(TreeOf(rules), name, carried) == Found(carried);
    assert !EndsInside([], rest);
    PrefixCategorySplits(rules, name, k, |name|);
    NoRulesNoAnswer(rest, |rest|);
    if rest == "" {
      assert name == key;
    } else {
      AnswerSplits(rules, name, k);
    }
  }

  /** The name ends exactly at its key. */
  lemma AgreesAtKey(rules: seq<Rule>, name: string, carried: Option<string>)
    requires rules != [] && NonEmptyTags(rules) && MinLength(rules) == |name|
    requires name in Keys(rules, |name|)
    ensures Agrees(rules, name, carried)
  {
    var k := |name|;
    var own, deeper := Effective(rules, name), Tails(rules, name);
    KeysCovered(rules, k, name);
    assert name[..k] == name && name[k..] == "";
    assert Search(TreeOf(rules), name, carried) == Search(Child(rules, name), "", carried);
    SearchAttached(own, if deeper == [] then None else Some(TreeOf(deeper)), "", carried);
    assert EndsInside(rules, name) == EndsInside(deeper, "");
    PrefixCategorySplits(rules, name, k, k);
    NoRulesNoAnswer("", 0);
  }

  /** The name goes on below its key. */
  lemma AgreesBelowKey(rules: seq<Rule>, name: string, carried: Option<string>)
    requires rules != [] && NonEmptyTags(rules) && MinLength(rules) < |name|
    requires name[..MinLength(rules)] in Keys(rules, MinLength(rules))
    requires forall passed :: var deeper := Tails(rules, name[..MinLength(rules)]);
               deeper == [] || Agrees(deeper, name[MinLength(rules)..], passed)
    ensures Agrees(rules, name, carried)
  {
    var k := MinLength(rules);
    var key, rest := name[..k], name[k..];
    var own, deeper := Effective(rules, key), Tails(rules, key);
    var passed := if own.Some? && !own.value.exact then Some(own.value.category) else carried;
    KeysCovered(rules, k, key);
    AnswerSplits(rules, name, k);
    assert EndsInside(rules, name) == EndsInside(deeper, rest);
    assert Search(TreeOf(rules), name, carried) == Search(Child(rules, key), rest, carried);
    SearchAttached(own, if deeper == [] then None else Some(TreeOf(deeper)), rest, carried);
    if deeper == [] {
      NoRulesNoAnswer(rest, |rest|);
    } else {
      assert Agrees(deeper, rest, passed);
    }
  }

  /** Looking any name up in the compiled index of any rule list, with any category already carried. */
  lemma {:induction false} LookupAgrees(rules: seq<Rule>, name: string, carried: Option<string>)
    requires rules != [] && NonEmptyTags(rules)
    ensures Agrees(rules, name, carried)
    decreases |name|
  {
    var k := MinLength(rules);
    if |name| < k {
      AgreesShort(rules, name, carried);
    } else if name[..k] !in Keys(rules, k) {
      AgreesUnknownKey(rules, name, carried);
    } else if |name| == k {
      assert name[..k] == name;
      AgreesAtKey(rules, name, carried);
    } else {
      var deeper := Tails(rules, name[..k]);
      forall passed | deeper != [] ensures Agrees(deeper, name[k..], passed) {
        LookupAgrees(deeper, name[k..], passed);
      }
      AgreesBelowKey(rules, name, carried);
    }
  }

  /** The compiled index answers like the rule list on every name on which it answers at all. */
  lemma {:induction false} LookupIsAnswer(rules: seq<Rule>, name: string)
    requires rules != [] && NonEmptyTags(rules)
    ensures Search(TreeOf(rules), name, None) ==
            if LookupFails(rules, name) then KeyError else Found(Answer(rules, name))
  {
    LookupAgrees(rules, name, None);
  }

  // ------------------------------------------------------------------
  // When the lookup raises KeyError
  // ------------------------------------------------------------------

  /** A tag of the tails of `key` is a tag that extends `key`. */
  lemma TailTag(rules: seq<Rule>, key: string, t: string)
    requires HasTag(Tails(rules, key), t)
    ensures HasTag(rules, key + t)
  {
    var tails := Tails(rules, key);
    var r :| r in tails && r.tag == t;
    EffectiveIsMembership(tails, t);
    EffectiveTails(rules, key, t);
    EffectiveIsMembership(rules, key + t);
  }

  lemma LongerTailTag(rules: seq<Rule>, key: string, rest: string)
    requires HasLongerTag(Tails(rules, key), rest)
    ensures HasLongerTag(rules, key + rest)
  {
    var r :| r in Tails(rules, key) && rest < r.tag;
    TailTag(rules, key, r.tag);
    var longer :| longer in rules && longer.tag == key + r.tag;
    assert key + rest < longer.tag;
  }

  lemma {:induction false} EndsInsideHasLongerTag(rules: seq<Rule>, name: string)
    requires NonEmptyTags(rules) && EndsInside(rules, name)
    ensures HasLongerTag(rules, name)
    decreases |name|
  {
    if name == "" {
      assert rules[0] in rules && "" < rules[0].tag;
    } else {
      var k := MinLength(rules);
      var key, rest := name[..k], name[k..];
      assert EndsInside(Tails(rules, key), rest);
      assert key + rest == name;
      EndsInsideHasLongerTag(Tails(rules, key), rest);
      LongerTailTag(rules, key, rest);
    }
  }

  /** A tag is always reached after a whole number of strides. */
  lemma {:induction false} TagsEndStrides(rules: seq<Rule>, name: string)
    requires NonEmptyTags(rules) && Effective(rules, name).Some?
    requires HasLongerTag(rules, name)
    ensures EndsInside(rules, name)
    decreases |name|
  {
    EffectiveIsMembership(rules, name);
    var k := MinLength(rules);
    var key, rest := name[..k], name[k..];
    var tails := Tails(rules, key);
    var longer :| longer in rules && name < longer.tag;
    assert key + rest == name;
    assert key < longer.tag;
    TailsNonEmpty(rules, key);
    if rest == "" {
    } else {
      EffectiveTails(rules, key, rest);
      var t := longer.tag[k..];
      assert key + t == longer.tag && rest < t;
      EffectiveIsMembership(rules, longer.tag);
      EffectiveTails(rules, key, t);
      EffectiveIsMembership(tails, t);
      TagsEndStrides(tails, rest);
    }
  }

  /**
    A name that is itself a tag: the lookup raises KeyError exactly when the tag
    is a "starts with" tag and some other tag is longer and starts with it.
   */
  lemma {:induction false} TagLookupFailsIff(rules: seq<Rule>, name: string)
    requires rules != [] && NonEmptyTags(rules) && Effective(rules, name).Some?
    ensures Search(TreeOf(rules), name, None) == KeyError
            <==> IsPrefixTag(rules, name) && HasLongerTag(rules, name)
  {
    LookupIsAnswer(rules, name);
    if HasLongerTag(rules, name) {
      TagsEndStrides(rules, name);
    }
    if EndsInside(rules, name) {
      EndsInsideHasLongerTag(rules, name);
    }
  }

  /** Two conditions, each enough for a lookup to return. */
  lemma {:induction false} LookupReturnsWhen(rules: seq<Rule>, name: string)
    requires rules != [] && NonEmptyTags(rules)
    requires IsExactTag(rules, name) || !HasLongerTag(rules, name)
    ensures Search(TreeOf(rules), name, None) == Found(Answer(rules, name))
  {
    LookupIsAnswer(rules, name);
    if EndsInside(rules, name) {
      EndsInsideHasLongerTag(rules, name);
    }
  }

  /** A schema on which the compiled lookup and the rule list part ways. */
  lemma PrefixOfPrefixRaises()
    ensures var rules := [Rule("gemm", "matmul", false), Rule("gemm_kernel", "kernel", false)];
            && Answer(rules, "gemm") == Some("matmul")
            && NonEmptyTags(rules)
            && Search(TreeOf(rules), "gemm", None) == KeyError
  {
    var rules := [Rule("gemm", "matmul", false), Rule("gemm_kernel", "kernel", false)];
    assert rules[..1] == [rules[0]];
    assert Effective(rules[..1], "gemm") == Some(Verdict("matmul", false));
    assert "gemm"[..4] == "gemm";
    assert rules[1] in rules && "gemm" < rules[1].tag;
    TagLookupFailsIff(rules, "gemm");
  }
}
