/** The depth-first branch and bound of BranchAndBoundCoinSelection::bnb as a step machine over
    its search tree, with what holds over every run of it: soundness of each pruning, optimality,
    completeness and the bound on the number of steps. */
module BranchAndBound {
  import opened Basics

  /** What a search is over: the effective values of the optional groups in search order, the
      effective value of the required groups, and the window [target, target + cost]. */
  datatype Problem = Problem(vals: seq<int>, base: int, target: int, cost: int)
  {
    ghost predicate Valid() {
      (forall i :: 0 <= i < |vals| ==> vals[i] > 0) && cost >= 0 && base <= target
    }

    ghost predicate InWindow(total: int) {
      target <= total <= target + cost
    }
  }

  /** The state of the loop: the choices made so far, the two running sums, the best so far. */
  datatype Node = Node(sel: seq<bool>, value: int, avail: int, bestSel: seq<bool>, bestValue: Option<int>)

  datatype Outcome =
    | Going(node: Node)      // the next iteration runs on this node
    | Exhausted(node: Node)  // walked back to the root
    | Perfect(node: Node)    // left the loop on an exact match
    | CutOff(node: Node)     // ran out of tries

  datatype BnbResult = Found(sel: seq<bool>, value: int) | NoExactMatch | TotalTriesExceeded

  // ----- the two running sums, stated independently of the search -----

  /** Total of the chosen values of a selection that decides the first |sel| groups. */
  function Chosen(vals: seq<int>, sel: seq<bool>): int
    requires |sel| <= |vals|
  {
    if sel == [] then 0 else
      var k := |sel| - 1;
      Chosen(vals, sel[..k]) + if sel[k] then vals[k] else 0
  }

  /** Total of the values from position k on. */
  function Rest(vals: seq<int>, k: nat): int
    requires k <= |vals|
    decreases |vals| - k
  {
    if k == |vals| then 0 else vals[k] + Rest(vals, k + 1)
  }

  // ----- one iteration -----

  /** The length that is left of a selection once its trailing omissions are dropped. */
  function Stripped(sel: seq<bool>): (k: nat)
    ensures k <= |sel|
    ensures k > 0 ==> sel[k - 1]
    ensures forall i :: k <= i < |sel| ==> !sel[i]
  {
    if sel == [] || sel[|sel| - 1] then |sel| else Stripped(sel[..|sel| - 1])
  }

  function Retreat(p: Problem, s: Node): Outcome
    requires |s.sel| <= |p.vals|
  {
    var k := Stripped(s.sel);
    var s' := s.(avail := s.avail + Rest(p.vals, k) - Rest(p.vals, |s.sel|));
    if k == 0 then Exhausted(s'.(sel := []))
    else Going(s'.(sel := s.sel[..k - 1] + [false], value := s.value - p.vals[k - 1]))
  }

  function Record(s: Node): Node
  {
    if s.bestValue.None? || s.value < s.bestValue.value
    then s.(bestSel := s.sel, bestValue := Some(s.value)) else s
  }

  function Step(p: Problem, s: Node): Outcome
    requires |s.sel| <= |p.vals|
    requires s.avail > 0 ==> |s.sel| < |p.vals|
  {
    if s.value + s.avail < p.target || s.value > p.target + p.cost then Retreat(p, s)
    else if s.value >= p.target then
      if s.value == p.target then Perfect(Record(s)) else Retreat(p, Record(s))
    else
      Going(s.(sel := s.sel + [true],
               value := s.value + p.vals[|s.sel|],
               avail := s.avail - p.vals[|s.sel|]))
  }

  function Start(p: Problem): Node
  {
    Node([], p.base, Rest(p.vals, 0), [], None)
  }

  ghost function Search(p: Problem, s: Node, tries: nat): Outcome
    requires p.Valid() && Consistent(p, s)
    decreases tries
  {
    if tries == 0 then CutOff(s)
    else
      StepKeepsConsistent(p, s);
      var o := Step(p, s);
      if o.Going? then Search(p, o.node, tries - 1) else o
  }

  function ResultOf(o: Outcome): BnbResult
  {
    if o.node.bestSel == [] || o.node.bestValue.None? then
      if o.Exhausted? then NoExactMatch else TotalTriesExceeded
    else Found(o.node.bestSel, o.node.bestValue.value)
  }

  ghost function Solve(p: Problem, tries: nat): BnbResult
    requires p.Valid()
  {
    StartIsConsistent(p);
    ResultOf(Search(p, Start(p), tries))
  }

  // ----- what every iteration keeps: the running sums -----

  /** The running sums are what they stand for, the path only went forward below the target,
      and a recorded best is a selection in the window with the recorded total. */
  ghost predicate Consistent(p: Problem, s: Node)
  {
    && |s.sel| <= |p.vals|
    && s.value == p.base + Chosen(p.vals, s.sel)
    && s.avail == Rest(p.vals, |s.sel|)
    && WentBelow(p, s.sel)
    && GoodBest(p, s)
  }

  ghost predicate GoodBest(p: Problem, s: Node)
  {
    match s.bestValue
    case None => s.bestSel == []
    case Some(v) =>
      && |s.bestSel| <= |p.vals|
      && v == p.base + Chosen(p.vals, s.bestSel)
      && p.InWindow(v)
      && (p.base < p.target ==> s.bestSel != [])
      && (s.bestSel != [] ==> s.bestSel[|s.bestSel| - 1])
  }

  lemma StartIsConsistent(p: Problem)
    ensures Consistent(p, Start(p))
  {}

  lemma {:induction false} StrippedKeepsChosen(vals: seq<int>, sel: seq<bool>)
    requires |sel| <= |vals|
    ensures Chosen(vals, sel) == Chosen(vals, sel[..Stripped(sel)])
  {
    if sel == [] || sel[|sel| - 1] {
      assert sel[..|sel|] == sel;
    } else {
      var s' := sel[..|sel| - 1];
      StrippedKeepsChosen(vals, s');
      assert s'[..Stripped(s')] == sel[..Stripped(sel)];
    }
  }

  lemma {:induction false} RestIsNonNegative(vals: seq<int>, k: nat)
    requires k <= |vals|
    requires forall i :: 0 <= i < |vals| ==> vals[i] > 0
    ensures Rest(vals, k) >= 0
    decreases |vals| - k
  {
    if k < |vals| {
      RestIsNonNegative(vals, k + 1);
    }
  }

  /** Taking back the last inclusion takes its value off the total. */
  lemma RetreatTotal(vals: seq<int>, sel: seq<bool>, k: nat)
    requires |sel| <= |vals| && k == Stripped(sel) > 0
    ensures Chosen(vals, sel[..k - 1] + [false]) == Chosen(vals, sel) - vals[k - 1]
  {
    var t := sel[..k - 1] + [false];
    StrippedKeepsChosen(vals, sel);
    assert sel[..k][..k - 1] == sel[..k - 1] == t[..k - 1];
  }

  /** The path only went forward below the target. */
  ghost predicate WentBelow(p: Problem, sel: seq<bool>)
    requires |sel| <= |p.vals|
  {
    forall k :: 0 <= k < |sel| ==> p.base + Chosen(p.vals, sel[..k]) < p.target
  }

  lemma RetreatWentBelow(p: Problem, sel: seq<bool>, k: nat)
    requires |sel| <= |p.vals| && 0 < k <= |sel| && WentBelow(p, sel)
    ensures WentBelow(p, sel[..k - 1] + [false])
  {
    var t := sel[..k - 1] + [false];
    forall j | 0 <= j < |t| ensures p.base + Chosen(p.vals, t[..j]) < p.target {
      assert t[..j] == sel[..j];
    }
  }

  lemma RetreatKeepsConsistent(p: Problem, s: Node)
    requires p.Valid() && Consistent(p, s)
    ensures Retreat(p, s).Going? ==> Consistent(p, Retreat(p, s).node)
    ensures !Retreat(p, s).Going? ==> GoodBest(p, Retreat(p, s).node)
  {
    hide Chosen, Rest, GoodBest, Stripped, WentBelow;
    var k := Stripped(s.sel);
    SameBest(p, s, Retreat(p, s).node);
    if k > 0 {
      RetreatTotal(p.vals, s.sel, k);
      RetreatWentBelow(p, s.sel, k);
    }
  }

  lemma SameBest(p: Problem, s: Node, s': Node)
    requires s'.bestSel == s.bestSel && s'.bestValue == s.bestValue
    ensures GoodBest(p, s) <==> GoodBest(p, s')
  {}

  lemma ForwardKeepsConsistent(p: Problem, s: Node)
    requires p.Valid() && Consistent(p, s) && s.value < p.target && |s.sel| < |p.vals|
    ensures Consistent(p, s.(sel := s.sel + [true],
                             value := s.value + p.vals[|s.sel|],
                             avail := s.avail - p.vals[|s.sel|]))
  {
    var t := s.sel + [true];
    assert t[..|s.sel|] == s.sel;
    forall j | 0 <= j < |t| ensures p.base + Chosen(p.vals, t[..j]) < p.target {
      assert j < |s.sel| ==> t[..j] == s.sel[..j];
    }
  }

  lemma ConsistentMeans(p: Problem, s: Node)
    requires Consistent(p, s)
    ensures |s.sel| <= |p.vals| && (s.avail > 0 ==> |s.sel| < |p.vals|) && GoodBest(p, s)
  {}

  lemma StepKeepsConsistent(p: Problem, s: Node)
    requires p.Valid() && Consistent(p, s)
    ensures Step(p, s).Going? ==> Consistent(p, Step(p, s).node)
    ensures !Step(p, s).Going? ==> GoodBest(p, Step(p, s).node)
  {
    hide Consistent, GoodBest, Retreat, Record, Chosen, Rest;
    ConsistentMeans(p, s);
    if s.value + s.avail < p.target || s.value > p.target + p.cost {
      RetreatKeepsConsistent(p, s);
    } else if s.value >= p.target {
      RecordIsConsistent(p, s);
      RetreatKeepsConsistent(p, Record(s));
    } else {
      ForwardKeepsConsistent(p, s);
    }
  }

  lemma RecordIsConsistent(p: Problem, s: Node)
    requires p.Valid() && Consistent(p, s) && p.InWindow(s.value)
    ensures Consistent(p, Record(s)) && GoodBest(p, Record(s))
  {
    if s.sel != [] {
      var k := |s.sel| - 1;
      assert p.base + Chosen(p.vals, s.sel[..k]) < p.target;
    }
  }

  // ----- pruning: the subtree under a node -----

  /** Every completion of a partial selection totals between what is chosen and what is chosen
      plus what is still undecided. */
  lemma {:induction false} SubtreeBounds(vals: seq<int>, sel: seq<bool>, b: seq<bool>)
    requires |sel| <= |b| <= |vals| && sel == b[..|sel|]
    requires forall i :: 0 <= i < |vals| ==> vals[i] > 0
    ensures Chosen(vals, sel) <= Chosen(vals, b) <= Chosen(vals, sel) + Rest(vals, |sel|) - Rest(vals, |b|)
    decreases |b|
  {
    if |sel| == |b| {
      assert sel == b;
    } else {
      SubtreeBounds(vals, sel, b[..|b| - 1]);
    }
  }

  /** No completion of the node's selection is in the window with a total below the recorded best. */
  ghost predicate Nothing(p: Problem, s: Node, b: seq<bool>)
    requires |b| == |p.vals|
  {
    p.InWindow(p.base + Chosen(p.vals, b)) ==>
      s.bestValue.Some? && s.bestValue.value <= p.base + Chosen(p.vals, b)
  }

  /** The walk has already left the subtree that holds b: at their first difference b takes the
      inclusion branch, which is explored first. */
  ghost predicate Passed(b: seq<bool>, sel: seq<bool>)
  {
    exists k :: PassedAt(b, sel, k)
  }

  ghost predicate PassedAt(b: seq<bool>, sel: seq<bool>, k: int)
  {
    0 <= k < |sel| && k < |b| && b[k] && !sel[k] && b[..k] == sel[..k]
  }

  /** Everything behind the walk is accounted for by the recorded best. */
  ghost predicate Explored(p: Problem, s: Node)
  {
    forall b: seq<bool> :: |b| == |p.vals| && Passed(b, s.sel) ==> Nothing(p, s, b)
  }

  /** Being passed at the omission that ends a retreat is having taken the last inclusion. */
  lemma PassedAtRetreat(sel: seq<bool>, b: seq<bool>, k: nat, j: int)
    requires 0 < k <= |sel| && sel[k - 1] && PassedAt(b, sel[..k - 1] + [false], j)
    ensures j < k - 1 ==> PassedAt(b, sel, j)
    ensures j == k - 1 ==> k <= |b| && b[..k] == sel[..k]
  {
    var t := sel[..k - 1] + [false];
    assert t[..j] == sel[..j];
    if j == k - 1 {
      assert b[..k] == b[..j] + [true];
      assert sel[..k] == sel[..j] + [true];
    }
  }

  /** Where a retreat goes, everything newly behind the walk was behind it already or is under
      the node it left. */
  lemma RetreatPasses(sel: seq<bool>, b: seq<bool>, k: nat)
    requires k == Stripped(sel) && |sel| <= |b|
    requires k == 0 || Passed(b, sel[..k - 1] + [false])
    ensures Passed(b, sel) || b[..|sel|] == sel
  {
    if k == 0 {
      FirstDifference(sel, b, 0);
    } else {
      var j :| PassedAt(b, sel[..k - 1] + [false], j);
      PassedAtRetreat(sel, b, k, j);
      if j == k - 1 {
        FirstDifference(sel, b, k);
      }
    }
  }

  /** If b agrees with sel up to k and sel only omits from there on, then b is under sel or passed. */
  lemma {:induction false} FirstDifference(sel: seq<bool>, b: seq<bool>, k: nat)
    requires k <= |sel| <= |b|
    requires b[..k] == sel[..k]
    requires forall i :: k <= i < |sel| ==> !sel[i]
    ensures Passed(b, sel) || b[..|sel|] == sel
    decreases |sel| - k
  {
    if k < |sel| {
      if b[k] {
        assert PassedAt(b, sel, k);
      } else {
        assert b[..k + 1] == b[..k] + [b[k]];
        assert sel[..k + 1] == sel[..k] + [sel[k]];
        FirstDifference(sel, b, k + 1);
      }
    } else {
      assert sel[..k] == sel;
    }
  }

  /** Retreating from a node whose whole subtree holds nothing better loses nothing. */
  lemma RetreatIsSound(p: Problem, s: Node)
    requires p.Valid() && |s.sel| <= |p.vals| && Explored(p, s)
    requires forall b: seq<bool> :: |b| == |p.vals| && b[..|s.sel|] == s.sel ==> Nothing(p, s, b)
    ensures Retreat(p, s).Going? ==> Explored(p, Retreat(p, s).node)
    ensures Retreat(p, s).Exhausted? ==>
      forall b: seq<bool> :: |b| == |p.vals| ==> Nothing(p, Retreat(p, s).node, b)
  {
    var k := Stripped(s.sel);
    var s' := Retreat(p, s).node;
    forall b: seq<bool> | |b| == |p.vals| && (k == 0 || Passed(b, s'.sel))
      ensures Nothing(p, s', b)
    {
      RetreatPasses(s.sel, b, k);
      assert Nothing(p, s, b);
    }
  }

  /** Each of the three reasons to leave a subtree is justified for every selection in it. */
  lemma PruningIsSound(p: Problem, s: Node, b: seq<bool>)
    requires p.Valid() && Consistent(p, s)
    requires |b| == |p.vals| && b[..|s.sel|] == s.sel
    ensures s.value + s.avail < p.target || s.value > p.target + p.cost ==> Nothing(p, s, b)
    ensures p.InWindow(s.value) ==> Nothing(p, Record(s), b)
  {
    SubtreeBounds(p.vals, s.sel, b);
  }

  lemma RecordKeepsExplored(p: Problem, s: Node)
    requires Explored(p, s)
    ensures Explored(p, Record(s))
  {
    forall b: seq<bool> | |b| == |p.vals| && Passed(b, s.sel) ensures Nothing(p, Record(s), b) {
      assert Nothing(p, s, b);
    }
  }

  lemma ForwardPassesNothing(b: seq<bool>, sel: seq<bool>)
    requires Passed(b, sel + [true])
    ensures Passed(b, sel)
  {
    var t := sel + [true];
    var k :| PassedAt(b, t, k);
    assert t[..k] == sel[..k];
    assert PassedAt(b, sel, k);
  }

  /** Nothing is lost by an iteration; when the search stops by itself, the best is final. */
  lemma StepIsSound(p: Problem, s: Node)
    requires p.Valid() && Consistent(p, s) && Explored(p, s)
    ensures Step(p, s).Going? ==> Explored(p, Step(p, s).node)
    ensures !Step(p, s).Going? ==>
      forall b: seq<bool> :: |b| == |p.vals| ==> Nothing(p, Step(p, s).node, b)
  {
    if s.value + s.avail < p.target || s.value > p.target + p.cost {
      forall b: seq<bool> | |b| == |p.vals| && b[..|s.sel|] == s.sel ensures Nothing(p, s, b) {
        PruningIsSound(p, s, b);
      }
      RetreatIsSound(p, s);
    } else if s.value >= p.target {
      var r := Record(s);
      RecordKeepsExplored(p, s);
      forall b: seq<bool> | |b| == |p.vals| && b[..|s.sel|] == s.sel ensures Nothing(p, r, b) {
        PruningIsSound(p, s, b);
      }
      RetreatIsSound(p, r);
    } else {
      var s' := Step(p, s).node;
      forall b: seq<bool> | |b| == |p.vals| && Passed(b, s'.sel) ensures Nothing(p, s', b) {
        ForwardPassesNothing(b, s.sel);
        assert Nothing(p, s, b);
      }
    }
  }

  // ----- each tree node is visited at most once -----

  /** The position of a node in the depth-first, inclusion-first walk of the full tree over n groups. */
  ghost function Rank(sel: seq<bool>, n: nat): nat
    requires |sel| <= n
  {
    if sel == [] then 0 else
      var k := |sel| - 1;
      Rank(sel[..k], n) + if sel[k] then 1 else Pow2(n - k)
  }

  /** The nodes under sel fill the positions from Rank(sel) on, one for each node of the subtree. */
  lemma {:induction false} SubtreeRanks(sel: seq<bool>, under: seq<bool>, n: nat)
    requires |sel| <= |under| <= n && sel == under[..|sel|]
    ensures Rank(under, n) + Pow2(n - |under| + 1) <= Rank(sel, n) + Pow2(n - |sel| + 1)
    decreases |under|
  {
    if |sel| == |under| {
      assert sel == under;
    } else {
      SubtreeRanks(sel, under[..|under| - 1], n);
    }
  }

  /** The omission branch of the last inclusion comes after everything under that inclusion. */
  lemma RetreatAdvances(sel: seq<bool>, k: nat, n: nat)
    requires 0 < k <= |sel| <= n && sel[k - 1]
    ensures Rank(sel[..k - 1] + [false], n) > Rank(sel, n)
  {
    var up, t := sel[..k], sel[..k - 1] + [false];
    SubtreeRanks(up, sel, n);
    assert up[..k - 1] == sel[..k - 1];
    assert t[..k - 1] == sel[..k - 1];
    Pow2Monotone(1, n - |sel| + 1);
  }

  lemma StepAdvances(p: Problem, s: Node)
    requires p.Valid() && Consistent(p, s) && Step(p, s).Going?
    ensures |Step(p, s).node.sel| <= |p.vals|
    ensures Rank(Step(p, s).node.sel, |p.vals|) > Rank(s.sel, |p.vals|)
  {
    hide Rank, Consistent, Chosen, Rest;
    ConsistentMeans(p, s);
    var t := Step(p, s).node.sel;
    if |t| <= |s.sel| {
      RetreatAdvances(s.sel, Stripped(s.sel), |p.vals|);
    } else {
      ForwardAdvances(s.sel, |p.vals|);
    }
  }

  lemma ForwardAdvances(sel: seq<bool>, n: nat)
    requires |sel| < n
    ensures Rank(sel + [true], n) == Rank(sel, n) + 1
  {
    assert (sel + [true])[..|sel|] == sel;
  }

  // ----- whole runs -----

  /** A run unfolds by one iteration at a time. */
  lemma SearchUnfolds(p: Problem, s: Node, tries: nat)
    requires p.Valid() && Consistent(p, s)
    ensures |s.sel| <= |p.vals| && (s.avail > 0 ==> |s.sel| < |p.vals|)
    ensures tries == 0 ==> Search(p, s, tries) == CutOff(s)
    ensures tries > 0 && Step(p, s).Going? ==>
      Consistent(p, Step(p, s).node) && Search(p, s, tries) == Search(p, Step(p, s).node, tries - 1)
    ensures tries > 0 && !Step(p, s).Going? ==> Search(p, s, tries) == Step(p, s)
  {
    StepKeepsConsistent(p, s);
  }

  lemma PerfectHasBest(p: Problem, s: Node)
    requires |s.sel| <= |p.vals| && (s.avail > 0 ==> |s.sel| < |p.vals|)
    ensures Step(p, s).Perfect? ==> Step(p, s).node.bestValue.Some?
  {}

  /** Every run ends with a recorded best that is a selection in the window, and if it stopped by
      itself then no selection in the window has a smaller total. */
  lemma {:induction false} SearchIsSound(p: Problem, s: Node, tries: nat)
    requires p.Valid() && Consistent(p, s) && Explored(p, s)
    ensures !Search(p, s, tries).Going?
    ensures GoodBest(p, Search(p, s, tries).node)
    ensures Search(p, s, tries).Perfect? ==> Search(p, s, tries).node.bestValue.Some?
    ensures !Search(p, s, tries).CutOff? ==>
      forall b: seq<bool> :: |b| == |p.vals| ==> Nothing(p, Search(p, s, tries).node, b)
    decreases tries
  {
    hide Consistent, Explored, Nothing, GoodBest, Search, Retreat;
    SearchUnfolds(p, s, tries);
    ConsistentMeans(p, s);
    if tries > 0 {
      StepKeepsConsistent(p, s);
      StepIsSound(p, s);
      PerfectHasBest(p, s);
      if Step(p, s).Going? {
        SearchIsSound(p, Step(p, s).node, tries - 1);
      }
    }
  }

  /** Positions are below the number of nodes of the whole tree. */
  lemma RankBound(sel: seq<bool>, n: nat)
    requires |sel| <= n
    ensures Rank(sel, n) + 2 <= Pow2(n + 1)
  {
    assert sel[..0] == [];
    SubtreeRanks([], sel, n);
    Pow2Monotone(1, n - |sel| + 1);
  }

  lemma {:induction false} SearchTerminates(p: Problem, s: Node, tries: nat)
    requires p.Valid() && Consistent(p, s)
    requires Rank(s.sel, |p.vals|) + tries >= Pow2(|p.vals| + 1) - 1
    ensures !Search(p, s, tries).CutOff?
    decreases tries
  {
    RankBound(s.sel, |p.vals|);
    StepKeepsConsistent(p, s);
    SearchUnfolds(p, s, tries);
    hide Rank, Step, Search, Consistent;
    if Step(p, s).Going? {
      StepAdvances(p, s);
      SearchTerminates(p, Step(p, s).node, tries - 1);
    }
  }

  /** A selection of the optional groups whose total, with the required groups, is in the window. */
  ghost predicate Solution(p: Problem, b: seq<bool>)
  {
    |b| == |p.vals| && p.InWindow(p.base + Chosen(p.vals, b))
  }

  /** A selection that leaves its tail undecided omits it. */
  lemma {:induction false} PadKeepsChosen(vals: seq<int>, sel: seq<bool>, b: seq<bool>)
    requires |sel| <= |b| <= |vals| && b[..|sel|] == sel
    requires forall i :: |sel| <= i < |b| ==> !b[i]
    ensures Chosen(vals, b) == Chosen(vals, sel)
    decreases |b|
  {
    if |b| == |sel| {
      assert b == sel;
    } else {
      PadKeepsChosen(vals, sel, b[..|b| - 1]);
    }
  }

  /** Whatever the number of tries: a selection that is returned is a non-empty solution with the
      reported total, and its last decided group is a chosen one. */
  lemma FoundIsASolution(p: Problem, tries: nat)
    requires p.Valid() && Solve(p, tries).Found?
    ensures var Found(sel, v) := Solve(p, tries);
      && 0 < |sel| <= |p.vals| && sel[|sel| - 1]
      && v == p.base + Chosen(p.vals, sel)
      && p.InWindow(v)
      && (exists b :: Solution(p, b) && sel <= b && p.base + Chosen(p.vals, b) == v)
  {
    StartIsConsistent(p);
    SearchIsSound(p, Start(p), tries);
    var sel := Solve(p, tries).sel;
    var b := sel + seq(|p.vals| - |sel|, _ => false);
    assert b[..|sel|] == sel;
    PadKeepsChosen(p.vals, sel, b);
    assert Solution(p, b);
  }

  /** If the walk ended by itself, on the root or on an exact match, what it returns has the
      smallest total of all solutions. */
  lemma FoundIsOptimal(p: Problem, tries: nat, b: seq<bool>)
    requires p.Valid() && Solve(p, tries).Found? && Solution(p, b)
    requires !Search(p, Start(p), tries).CutOff?
    ensures Solve(p, tries).value <= p.base + Chosen(p.vals, b)
  {
    StartIsConsistent(p);
    SearchIsSound(p, Start(p), tries);
    assert Nothing(p, Search(p, Start(p), tries).node, b);
  }

  /** NoExactMatch is only reported when no selection at all is in the window. */
  lemma NoExactMatchMeansNoSolution(p: Problem, tries: nat, b: seq<bool>)
    requires p.Valid() && Solve(p, tries).NoExactMatch?
    ensures !Solution(p, b)
  {
    StartIsConsistent(p);
    var o := Search(p, Start(p), tries);
    SearchIsSound(p, Start(p), tries);
    if Solution(p, b) {
      assert Nothing(p, o.node, b);
      ExactStartIsNotExhausted(p, tries);
      assert false;
    }
  }

  /** When the required groups alone meet the target exactly, the search stops at once with an empty
      selection, which is reported as an exceeded number of tries. */
  lemma ExactStartIsNotExhausted(p: Problem, tries: nat)
    requires p.Valid()
    ensures p.base == p.target ==> Solve(p, tries).TotalTriesExceeded?
  {
    StartIsConsistent(p);
    RestIsNonNegative(p.vals, 0);
  }

  /** With one try for every node of the tree, a search that starts below the target succeeds
      exactly when there is a solution, with the smallest total of all solutions, and never reports
      an exceeded number of tries. */
  lemma EnoughTriesDecide(p: Problem, tries: nat)
    requires p.Valid() && p.base < p.target
    requires tries >= Pow2(|p.vals| + 1) - 1
    ensures !Solve(p, tries).TotalTriesExceeded?
    ensures Solve(p, tries).Found? <==> exists b :: Solution(p, b)
    ensures Solve(p, tries).Found? ==>
      forall b :: Solution(p, b) ==> Solve(p, tries).value <= p.base + Chosen(p.vals, b)
  {
    StartIsConsistent(p);
    SearchTerminates(p, Start(p), tries);
    SearchIsSound(p, Start(p), tries);
    if Solve(p, tries).Found? {
      FoundIsASolution(p, tries);
      forall b | Solution(p, b) ensures Solve(p, tries).value <= p.base + Chosen(p.vals, b) {
        FoundIsOptimal(p, tries, b);
      }
    } else {
      forall b ensures !Solution(p, b) {
        NoExactMatchMeansNoSolution(p, tries, b);
      }
    }
  }
}
