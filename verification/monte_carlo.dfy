/** The tree bookkeeping of the Monte-Carlo search of Team6_A3/MonteCarlo.py
    (`MonteCarloTreeSearchNode`), and the player parity of Team6_A3/sudokuai.py.

    A node is a value holding its children; the parent links of the source are
    replaced by paths of child indices from the root, so `backpropagate`, which
    climbs from a node to the root, becomes an update along the path leading to
    it.  The game (`State` of the source: `move`, `get_legal_actions`,
    `is_game_over`) is a parameter, and so is the rollout's reward. */
module MonteCarlo {
  import opened LegalMoves
  import opened Results

  /** The game a search runs on: the successor of a state, its legal actions,
      and whether the game is over in it. */
  datatype Game<!S> = Game(move: (S, Move) -> S, legalActions: S -> seq<Move>, gameOver: S -> bool)

  /** A tree node: its state, the action that led to it, the visit count, the
      tally of results (`_results`, a `defaultdict(int)`), the actions not yet
      expanded, and the children. */
  datatype Node<S> = Node(state: S, parentAction: Option<Move>, visits: nat, tally: map<int, nat>,
                          untried: seq<Move>, children: seq<Node<S>>)

  /** `_results[result]`: a missing key reads as 0. */
  function Tally<S>(node: Node<S>, result: int): nat
  {
    if result in node.tally then node.tally[result] else 0
  }

  /** `MonteCarloTreeSearchNode(state, parent, parent_action)`: no visits, wins
      and losses at 0, no children, and every legal action of the state untried. */
  function NewNode<S>(game: Game<S>, state: S, parentAction: Option<Move>): (r: Node<S>)
    ensures r.state == state && r.parentAction == parentAction
    ensures r.visits == 0 && r.children == [] && r.untried == game.legalActions(state)
    ensures forall result :: Tally(r, result) == 0
    ensures Q(r) == 0
  {
    Node(state, parentAction, 0, map[1 := 0, -1 := 0], game.legalActions(state), [])
  }

  /** `q()`: wins minus losses. */
  function Q<S>(node: Node<S>): int
  {
    Tally(node, 1) - Tally(node, -1)
  }

  /** `is_fully_expanded()`. */
  predicate FullyExpanded<S>(node: Node<S>)
  {
    |node.untried| == 0
  }

  /** The actions accounted for by a node: the untried ones and those that led to
      its children. */
  function Actions<S>(node: Node<S>): multiset<Move>
  {
    multiset(node.untried) + ChildActions(node.children)
  }

  function ChildActions<S>(children: seq<Node<S>>): multiset<Move>
  {
    if children == [] then multiset{}
    else
      var last := children[|children| - 1];
      ChildActions(children[..|children| - 1])
        + (if last.parentAction.Some? then multiset{last.parentAction.value} else multiset{})
  }

  // ---------------------------------------------------------------------
  // Expansion

  /** `expand()`: pops the last untried action and appends a child for the state
      it leads to; `pop()` on an empty list raises.  The untried list is the
      node's own: the state is not changed by the pop, although in the source
      the list is the object `get_legal_actions()` returned, which the state
      may share. */
  function Expand<S>(game: Game<S>, node: Node<S>): (r: Result<Node<S>>)
    ensures r.Failure? <==> FullyExpanded(node)
    ensures r.Failure? ==> r.error == EmptyPop
    ensures r.Success? ==>
      var a := node.untried[|node.untried| - 1];
      && r.value.untried == node.untried[..|node.untried| - 1]
      && r.value.children == node.children + [NewNode(game, game.move(node.state, a), Some(a))]
      && r.value.state == node.state && r.value.parentAction == node.parentAction
      && r.value.visits == node.visits && r.value.tally == node.tally
  {
    if node.untried == [] then Failure(EmptyPop)
    else
      var a := node.untried[|node.untried| - 1];
      var child := NewNode(game, game.move(node.state, a), Some(a));
      Success(node.(untried := node.untried[..|node.untried| - 1], children := node.children + [child]))
  }

  /** Expansion moves exactly one action from the untried list to a new child:
      one untried action fewer, one child more, and the same actions accounted for. */
  lemma ExpandMovesOneAction<S>(game: Game<S>, node: Node<S>)
    requires !FullyExpanded(node)
    ensures var r := Expand(game, node).value;
      && |r.untried| + 1 == |node.untried| && |r.children| == |node.children| + 1
      && r.children[|node.children|].parentAction == Some(node.untried[|node.untried| - 1])
      && Actions(r) == Actions(node)
  {
    var r := Expand(game, node).value;
    var a := node.untried[|node.untried| - 1];
    assert r.children[..|r.children| - 1] == node.children;
    assert node.untried == r.untried + [a];
  }

  // ---------------------------------------------------------------------
  // Paths and backpropagation

  /** A path of child indices that leads from `node` to a node of its subtree. */
  predicate ValidPath<S>(node: Node<S>, path: seq<nat>)
    decreases |path|
  {
    path == [] || (path[0] < |node.children| && ValidPath(node.children[path[0]], path[1..]))
  }

  /** The node a path leads to. */
  function At<S>(node: Node<S>, path: seq<nat>): Node<S>
    requires ValidPath(node, path)
    decreases |path|
  {
    if path == [] then node else At(node.children[path[0]], path[1..])
  }

  /** `after` is `before` with one more visit and one more `result`, and nothing
      else about the node itself changed. */
  ghost predicate Bumped<S>(before: Node<S>, after: Node<S>, result: int)
  {
    && after.visits == before.visits + 1
    && Tally(after, result) == Tally(before, result) + 1
    && (forall x :: x != result ==> Tally(after, x) == Tally(before, x))
    && after.state == before.state && after.parentAction == before.parentAction
    && after.untried == before.untried && |after.children| == |before.children|
  }

  /** `backpropagate(result)` called on the node `path` leads to: that node and
      each of its ancestors, up to the root, count one more visit and one more
      `result`. */
  function Backpropagate<S>(node: Node<S>, path: seq<nat>, result: int): (r: Node<S>)
    requires ValidPath(node, path)
    ensures Bumped(node, r, result)
    ensures forall i :: 0 <= i < |node.children| && (path == [] || i != path[0]) ==> r.children[i] == node.children[i]
    decreases |path|
  {
    var here := node.(visits := node.visits + 1, tally := node.tally[result := Tally(node, result) + 1]);
    if path == [] then here
    else here.(children := node.children[path[0] := Backpropagate(node.children[path[0]], path[1..], result)])
  }

  /** Backpropagation touches the nodes on the path and no other: a node whose
      path is a prefix of `path` is bumped, every other node is unchanged. */
  lemma {:induction false} BackpropagateTouchesOnlyPath<S>(node: Node<S>, path: seq<nat>, result: int, p: seq<nat>)
    requires ValidPath(node, path) && ValidPath(node, p)
    ensures var r := Backpropagate(node, path, result);
      && ValidPath(r, p)
      && (p <= path ==> Bumped(At(node, p), At(r, p), result))
      && (!(p <= path) ==> At(r, p) == At(node, p))
    decreases |p|
  {
    var r := Backpropagate(node, path, result);
    if p != [] {
      var i := p[0];
      if path != [] && i == path[0] {
        BackpropagateTouchesOnlyPath(node.children[i], path[1..], result, p[1..]);
        assert r.children[i] == Backpropagate(node.children[i], path[1..], result);
        assert (p <= path) == (p[1..] <= path[1..]);
      } else {
        assert r.children[i] == node.children[i];
        assert !(p <= path);
      }
    }
  }

  /** Backpropagating a win adds 1 to `q()`, a loss takes 1 off, anything else
      leaves it alone. */
  lemma BackpropagateQ<S>(node: Node<S>, path: seq<nat>, result: int)
    requires ValidPath(node, path)
    ensures var r := Backpropagate(node, path, result);
      Q(r) == Q(node) + (if result == 1 then 1 else if result == -1 then -1 else 0)
  {
    var r := Backpropagate(node, path, result);
    assert Tally(r, result) == Tally(node, result) + 1;
    if result != 1 {
      assert Tally(r, 1) == Tally(node, 1);
    }
    if result != -1 {
      assert Tally(r, -1) == Tally(node, -1);
    }
  }

  // ---------------------------------------------------------------------
  // Visit counts

  function SumVisits<S>(children: seq<Node<S>>): nat
  {
    if children == [] then 0 else SumVisits(children[..|children| - 1]) + children[|children| - 1].visits
  }

  /** Every node of the tree has at least as many visits as its children together. */
  predicate Counted<S>(node: Node<S>)
    decreases node
  {
    && node.visits >= SumVisits(node.children)
    && forall i :: 0 <= i < |node.children| ==> Counted(node.children[i])
  }

  /** Every node below the root has been visited. */
  predicate Visited<S>(node: Node<S>)
    decreases node
  {
    forall i :: 0 <= i < |node.children| ==> node.children[i].visits >= 1 && Visited(node.children[i])
  }

  lemma {:induction false} SumVisitsUpdate<S>(children: seq<Node<S>>, i: nat, x: Node<S>)
    requires i < |children|
    ensures SumVisits(children[i := x]) + children[i].visits == SumVisits(children) + x.visits
    decreases |children|
  {
    var n := |children| - 1;
    var updated := children[i := x];
    assert updated[..n] == if i < n then children[..n][i := x] else children[..n];
    if i < n {
      SumVisitsUpdate(children[..n], i, x);
    }
  }

  lemma SumVisitsAppend<S>(children: seq<Node<S>>, x: Node<S>)
    ensures SumVisits(children + [x]) == SumVisits(children) + x.visits
  {
    assert (children + [x])[..|children|] == children;
  }

  // ---------------------------------------------------------------------
  // Selection

  /** `q() / n()` of a visited child. */
  function Exploit<S>(child: Node<S>): real
    requires child.visits > 0
  {
    Q(child) as real / child.visits as real
  }

  /** The first index of a largest weight, as `np.argmax` picks it. */
  predicate FirstArgmax(weights: seq<real>, t: int)
  {
    && 0 <= t < |weights|
    && (forall u :: 0 <= u < |weights| ==> weights[u] <= weights[t])
    && (forall u :: 0 <= u < t ==> weights[u] < weights[t])
  }

  /** `np.argmax` from index k on, `best` being the first largest before k. */
  function Argmax(weights: seq<real>, k: nat, best: nat): (r: nat)
    requires best < k <= |weights|
    requires forall u :: 0 <= u < k ==> weights[u] <= weights[best]
    requires forall u :: 0 <= u < best ==> weights[u] < weights[best]
    ensures FirstArgmax(weights, r)
    decreases |weights| - k
  {
    if k == |weights| then best
    else if weights[best] < weights[k] then Argmax(weights, k + 1, k)
    else Argmax(weights, k + 1, best)
  }

  function ChildWeights<S>(children: seq<Node<S>>): (r: seq<real>)
    requires forall i :: 0 <= i < |children| ==> children[i].visits > 0
    ensures |r| == |children| && forall i :: 0 <= i < |children| ==> r[i] == Exploit(children[i])
  {
    seq(|children|, i requires 0 <= i < |children| => Exploit(children[i]))
  }

  /** `best_child(c_param=0.)`: the first child of largest `q() / n()`.  Without
      children `np.argmax` raises; a child never visited divides by zero.  On a
      node never visited itself, `np.log(0)` turns every weight into NaN and
      `np.argmax` picks the first. */
  function BestChild<S>(node: Node<S>): (r: Result<nat>)
    ensures r.Failure? <==> node.children == [] || exists i :: 0 <= i < |node.children| && node.children[i].visits == 0
    ensures r.Failure? ==> r.error == (if node.children == [] then EmptyArgmax else ZeroDivision)
    ensures r.Success? && node.visits > 0 ==>
      FirstArgmax(ChildWeights(node.children), r.value)
    ensures r.Success? && node.visits == 0 ==> r.value == 0
    ensures r.Success? ==> r.value < |node.children|
  {
    if node.children == [] then Failure(EmptyArgmax)
    else if exists i :: 0 <= i < |node.children| && node.children[i].visits == 0 then Failure(ZeroDivision)
    else if node.visits == 0 then Success(0)
    else Success(Argmax(ChildWeights(node.children), 1, 0))
  }

  /** A selection rule for `_tree_policy`: when it succeeds it names a child. */
  ghost predicate Selects<S(!new)>(select: Node<S> -> Result<nat>)
  {
    forall node: Node<S> :: select(node).Success? ==> select(node).value < |node.children|
  }

  /** `best_child(c_param=0.)` is such a rule. */
  lemma BestChildSelects<S(!new)>()
    ensures Selects((node: Node<S>) => BestChild(node))
  {
  }

  /** In a tree built by the search, selection at a node with children succeeds
      and picks the first child of largest `q() / n()`. */
  lemma BestChildOnSearchTree<S>(node: Node<S>)
    requires Counted(node) && Visited(node) && node.children != []
    ensures node.visits > 0
    ensures BestChild(node).Success? && FirstArgmax(ChildWeights(node.children), BestChild(node).value)
  {
    var n := |node.children| - 1;
    assert SumVisits(node.children) >= node.children[n].visits;
  }

  // ---------------------------------------------------------------------
  // The tree policy

  /** The descent `_tree_policy` may make: it goes on through nodes that are not
      over and fully expanded, and stops at a node whose game is over or at the
      new child of the first node that still has an untried action. */
  predicate Descent<S>(game: Game<S>, node: Node<S>, path: seq<nat>)
    decreases |path|
  {
    if game.gameOver(node.state) then path == []
    else if !FullyExpanded(node) then path == [|node.children|]
    else path != [] && path[0] < |node.children| && Descent(game, node.children[path[0]], path[1..])
  }

  /** `_tree_policy()`: walk down while the game is not over, expanding the first
      node with an untried action and otherwise moving to the selected child.  The
      result is the new tree and the path to the node returned. */
  function TreePolicy<S(!new)>(game: Game<S>, select: Node<S> -> Result<nat>, node: Node<S>): (r: Result<(Node<S>, seq<nat>)>)
    requires Selects(select)
    decreases node
  {
    if game.gameOver(node.state) then Success((node, []))
    else if !FullyExpanded(node) then Success((Expand(game, node).value, [|node.children|]))
    else
      match select(node)
      case Failure(e) => Failure(e)
      case Success(i) =>
        match TreePolicy(game, select, node.children[i])
        case Failure(e) => Failure(e)
        case Success((sub, p)) => Success((node.(children := node.children[i := sub]), [i] + p))
  }

  /** The node returned is a node whose game is over or a freshly expanded child,
      reached through nodes that are fully expanded and not over. */
  lemma {:induction false} TreePolicyDescends<S(!new)>(game: Game<S>, select: Node<S> -> Result<nat>, node: Node<S>)
    requires Selects(select)
    ensures var r := TreePolicy(game, select, node);
      r.Success? ==>
        var (tree, path) := r.value;
        && Descent(game, node, path) && ValidPath(tree, path)
        && (game.gameOver(At(tree, path).state)
            || (At(tree, path).visits == 0 && At(tree, path).children == [] && At(tree, path).parentAction.Some?))
    decreases node
  {
    var r := TreePolicy(game, select, node);
    if r.Success? && !game.gameOver(node.state) {
      if !FullyExpanded(node) {
        var tree := Expand(game, node).value;
        assert At(tree, [|node.children|]) == tree.children[|node.children|];
      } else {
        var i := select(node).value;
        TreePolicyDescends(game, select, node.children[i]);
        var (sub, p) := TreePolicy(game, select, node.children[i]).value;
        var tree := node.(children := node.children[i := sub]);
        assert ([i] + p)[1..] == p;
        assert At(tree, [i] + p) == At(sub, p);
      }
    }
  }

  // ---------------------------------------------------------------------
  // One simulation

  /** One pass of the loop in `compute_best_move`: `_tree_policy`, then the
      rollout's `reward` backpropagated from the node it returned. */
  function Simulate<S(!new)>(game: Game<S>, select: Node<S> -> Result<nat>, root: Node<S>, reward: int): (r: Result<Node<S>>)
    requires Selects(select)
  {
    match TreePolicy(game, select, root)
    case Failure(e) => Failure(e)
    case Success((tree, path)) =>
      TreePolicyDescends(game, select, root);
      Success(Backpropagate(tree, path, reward))
  }

  /** A simulation keeps the visit counts consistent: every node still has at
      least as many visits as its children together, every node below the root
      has been visited, and the root counts one visit more. */
  lemma {:induction false} SimulationKeepsCounts<S(!new)>(game: Game<S>, select: Node<S> -> Result<nat>, node: Node<S>, reward: int)
    requires Selects(select) && Counted(node) && Visited(node)
    ensures var r := Simulate(game, select, node, reward);
      r.Success? ==> Counted(r.value) && Visited(r.value) && r.value.visits == node.visits + 1
    decreases node
  {
    var r := Simulate(game, select, node, reward);
    if r.Success? && !game.gameOver(node.state) {
      if !FullyExpanded(node) {
        ExpansionKeepsCounts(game, node, reward);
      } else {
        var i := select(node).value;
        var (sub, p) := TreePolicy(game, select, node.children[i]).value;
        TreePolicyDescends(game, select, node.children[i]);
        SimulationKeepsCounts(game, select, node.children[i], reward);
        DescentKeepsCounts(node, i, sub, p, reward);
      }
    }
  }

  /** The expansion case: the new child, backpropagated, has one visit, and so
      has its parent one more. */
  lemma ExpansionKeepsCounts<S>(game: Game<S>, node: Node<S>, reward: int)
    requires Counted(node) && Visited(node) && !FullyExpanded(node)
    ensures var after := Backpropagate(Expand(game, node).value, [|node.children|], reward);
      Counted(after) && Visited(after)
  {
    var tree := Expand(game, node).value;
    var k := |node.children|;
    var after := Backpropagate(tree, [k], reward);
    var child := after.children[k];
    assert child == Backpropagate(tree.children[k], [], reward);
    assert after.children == node.children + [child];
    SumVisitsAppend(node.children, child);
  }

  /** The descent case: the child on the path keeps the counts and gains a visit,
      and so does its parent. */
  lemma DescentKeepsCounts<S>(node: Node<S>, i: nat, sub: Node<S>, p: seq<nat>, reward: int)
    requires Counted(node) && Visited(node) && i < |node.children| && ValidPath(sub, p)
    requires var child := Backpropagate(sub, p, reward);
      Counted(child) && Visited(child) && child.visits == node.children[i].visits + 1
    ensures var after := Backpropagate(node.(children := node.children[i := sub]), [i] + p, reward);
      Counted(after) && Visited(after)
  {
    var child := Backpropagate(sub, p, reward);
    var after := Backpropagate(node.(children := node.children[i := sub]), [i] + p, reward);
    assert ([i] + p)[1..] == p;
    assert after.children == node.children[i := child];
    SumVisitsUpdate(node.children, i, child);
  }

  // ---------------------------------------------------------------------
  // The simulation loop

  /** The loop `for i in range(simulation_no)` of `compute_best_move`, one pass
      per rollout reward, stopping at the first pass that raises. */
  function Passes<S(!new)>(game: Game<S>, select: Node<S> -> Result<nat>, root: Node<S>, rewards: seq<int>): Result<Node<S>>
    requires Selects(select)
    decreases |rewards|
  {
    if rewards == [] then Success(root)
    else
      match Simulate(game, select, root, rewards[0])
      case Failure(e) => Failure(e)
      case Success(next) => Passes(game, select, next, rewards[1..])
  }

  /** The passes keep the visit counts consistent, and the root counts one
      visit per pass. */
  lemma {:induction false} PassesKeepCounts<S(!new)>(game: Game<S>, select: Node<S> -> Result<nat>, root: Node<S>, rewards: seq<int>)
    requires Selects(select) && Counted(root) && Visited(root)
    ensures var r := Passes(game, select, root, rewards);
      r.Success? ==> Counted(r.value) && Visited(r.value) && r.value.visits == root.visits + |rewards|
    decreases |rewards|
  {
    if rewards != [] {
      SimulationKeepsCounts(game, select, root, rewards[0]);
      var s := Simulate(game, select, root, rewards[0]);
      if s.Success? {
        PassesKeepCounts(game, select, s.value, rewards[1..]);
      }
    }
  }

  /** The move proposed after a pass: `root.best_child(c_param=0.).parent_action`. */
  function Proposal<S>(root: Node<S>): (r: Result<Option<Move>>)
    ensures r.Success? <==> BestChild(root).Success?
  {
    match BestChild(root)
    case Failure(e) => Failure(e)
    case Success(i) => Success(root.children[i].parentAction)
  }

  /** From the fresh root of `compute_best_move`, whatever the rewards, the tree
      after the passes has consistent counts and one root visit per pass, and
      once the root has a child the proposal never raises: it is the action of
      the first child of largest `q() / n()`. */
  lemma FromNewRoot<S(!new)>(game: Game<S>, select: Node<S> -> Result<nat>, state: S, rewards: seq<int>)
    requires Selects(select)
    ensures var r := Passes(game, select, NewNode(game, state, None), rewards);
      r.Success? ==>
        && Counted(r.value) && Visited(r.value) && r.value.visits == |rewards|
        && (r.value.children != [] ==>
              && BestChild(r.value).Success? && Proposal(r.value).Success?
              && FirstArgmax(ChildWeights(r.value.children), BestChild(r.value).value)
              && Proposal(r.value).value == r.value.children[BestChild(r.value).value].parentAction)
  {
    var root := NewNode(game, state, None);
    PassesKeepCounts(game, select, root, rewards);
    var r := Passes(game, select, root, rewards);
    if r.Success? && r.value.children != [] {
      BestChildOnSearchTree(r.value);
    }
  }

  // ---------------------------------------------------------------------
  // Whose turn

  /** `1 if len(game_state.moves) % 2 == 0 else 2`: the player to move after
      `movesPlayed` moves. */
  function PlayerToMove(movesPlayed: nat): (p: int)
    ensures p == 1 || p == 2
    ensures p == 1 <==> movesPlayed % 2 == 0
  {
    if movesPlayed % 2 == 0 then 1 else 2
  }

  /** The players alternate: one more move hands the turn to the other player. */
  lemma PlayersAlternate(movesPlayed: nat)
    ensures PlayerToMove(movesPlayed + 1) == 3 - PlayerToMove(movesPlayed)
    ensures PlayerToMove(movesPlayed + 2) == PlayerToMove(movesPlayed)
  {
  }
}
