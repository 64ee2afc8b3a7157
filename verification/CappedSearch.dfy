/** What a search with any cap on its iterations returns: of the selections that the walk meets
    within the cap, the one with the smallest total, and of those the one it meets first. */
module CappedSearch {
  import opened Basics
  import opened BranchAndBound

  // ----- the part of the tree that is walked -----

  /** A node is entered further if what it has chosen is below the target and what is left to choose
      from can still reach it. */
  ghost predicate Open(p: Problem, sel: seq<bool>)
  {
    && |sel| < |p.vals|
    && p.base + Chosen(p.vals, sel) < p.target
    && p.base + Chosen(p.vals, sel) + Rest(p.vals, |sel|) >= p.target
  }

  /** Every node above this one is entered further. */
  ghost predicate Visited(p: Problem, sel: seq<bool>)
  {
    |sel| <= |p.vals| && forall k :: 0 <= k < |sel| ==> Open(p, sel[..k])
  }

  /** The number of nodes walked under a node, itself included. */
  ghost function Size(p: Problem, sel: seq<bool>): (n: nat)
    ensures n > 0
    decreases |p.vals| - |sel|
  {
    if Open(p, sel) then 1 + Size(p, sel + [true]) + Size(p, sel + [false]) else 1
  }

  /** The number of nodes walked before a node: those above it, and for every omission on its path
      those under the inclusion. */
  ghost function Turn(p: Problem, sel: seq<bool>): nat
    decreases |sel|
  {
    if sel == [] then 0 else
      var k := |sel| - 1;
      Turn(p, sel[..k]) + 1 + if sel[k] then 0 else Size(p, sel[..k] + [true])
  }

  /** A selection that the walk can record: the first on its path in the window. */
  ghost predicate Candidate(p: Problem, c: seq<bool>)
  {
    |c| <= |p.vals| && WentBelow(p, c) && p.InWindow(Total(p, c))
  }

  ghost function Total(p: Problem, c: seq<bool>): int
    requires |c| <= |p.vals|
  {
    p.base + Chosen(p.vals, c)
  }

  lemma CandidateIsVisited(p: Problem, c: seq<bool>)
    requires p.Valid() && Candidate(p, c)
    ensures Visited(p, c)
  {
    forall k | 0 <= k < |c| ensures Open(p, c[..k]) {
      SubtreeBounds(p.vals, c[..k], c);
      RestIsNonNegative(p.vals, |c|);
    }
  }

  /** A selection that is recorded ends in an inclusion. */
  lemma CandidateEnds(p: Problem, c: seq<bool>)
    requires Candidate(p, c) && p.base < p.target
    ensures c != [] && c[|c| - 1]
  {
    if c != [] {
      assert p.base + Chosen(p.vals, c[..|c| - 1]) < p.target;
    }
  }

  // ----- the order of the walk -----

  lemma VisitedPrefix(p: Problem, sel: seq<bool>, k: nat)
    requires Visited(p, sel) && k <= |sel|
    ensures Visited(p, sel[..k])
    ensures k < |sel| ==> Open(p, sel[..k])
  {
    forall j | 0 <= j < k ensures Open(p, sel[..k][..j]) {
      assert sel[..k][..j] == sel[..j];
    }
  }

  lemma TurnOfChild(p: Problem, sel: seq<bool>, take: bool)
    ensures Turn(p, sel + [take]) == Turn(p, sel) + 1 + if take then 0 else Size(p, sel + [true])
  {
    assert (sel + [take])[..|sel|] == sel;
  }

  lemma SizeOfOpen(p: Problem, sel: seq<bool>)
    requires Open(p, sel)
    ensures Size(p, sel) == 1 + Size(p, sel + [true]) + Size(p, sel + [false])
  {}

  /** The nodes under a node take their turns one after the other, from its own on. */
  lemma {:induction false} TurnsUnder(p: Problem, sel: seq<bool>, under: seq<bool>)
    requires |sel| <= |under| && sel == under[..|sel|] && Visited(p, under)
    ensures Turn(p, sel) + |under| - |sel| <= Turn(p, under)
    ensures Turn(p, under) + Size(p, under) <= Turn(p, sel) + Size(p, sel)
    decreases |under|
  {
    hide Size, Turn, Open, Visited;
    if |sel| == |under| {
      assert sel == under;
    } else {
      var k := |under| - 1;
      VisitedPrefix(p, under, k);
      TurnsUnder(p, sel, under[..k]);
      TurnOfChild(p, under[..k], under[k]);
      SizeOfOpen(p, under[..k]);
      assert under == under[..k] + [under[k]];
    }
  }

  /** A node that omits where another one includes comes later. */
  lemma OmissionIsLater(p: Problem, a: seq<bool>, b: seq<bool>, k: nat)
    requires Visited(p, a) && Visited(p, b)
    requires k < |a| && k < |b| && a[..k] == b[..k] && a[k] && !b[k]
    ensures Turn(p, a) < Turn(p, b)
  {
    hide Size, Turn, Open, Visited;
    var up := a[..k];
    assert a[..k + 1] == up + [true];
    assert b[..k + 1] == up + [false];
    TurnsUnder(p, up + [true], a);
    TurnsUnder(p, up + [false], b);
    TurnOfChild(p, up, true);
    TurnOfChild(p, up, false);
  }

  /** Different nodes of the walk have different turns. */
  lemma {:induction false} TurnsDiffer(p: Problem, a: seq<bool>, b: seq<bool>, k: nat)
    requires Visited(p, a) && Visited(p, b) && k <= |a| && k <= |b| && a[..k] == b[..k]
    ensures Turn(p, a) == Turn(p, b) ==> a == b
    decreases |a| - k
  {
    hide Size, Turn, Open, Visited;
    if k == |a| {
      TurnsUnder(p, a, b);
    } else if k == |b| {
      TurnsUnder(p, b, a);
    } else if a[k] == b[k] {
      assert a[..k + 1] == a[..k] + [a[k]];
      assert b[..k + 1] == b[..k] + [b[k]];
      TurnsDiffer(p, a, b, k + 1);
    } else if a[k] {
      OmissionIsLater(p, a, b, k);
    } else {
      OmissionIsLater(p, b, a, k);
    }
  }

  /** Behind the last node under a node nothing is left of its subtree. */
  lemma {:induction false} LastUnder(p: Problem, sel: seq<bool>, k: nat)
    requires Visited(p, sel) && k <= |sel| && forall i :: k <= i < |sel| ==> !sel[i]
    ensures Turn(p, sel) + Size(p, sel) == Turn(p, sel[..k]) + Size(p, sel[..k])
    decreases |sel|
  {
    hide Size, Turn, Open, Visited;
    if k == |sel| {
      assert sel[..k] == sel;
    } else {
      var m := |sel| - 1;
      var up := sel[..m];
      VisitedPrefix(p, sel, m);
      LastUnder(p, up, k);
      assert up[..k] == sel[..k];
      assert sel == up + [false];
      TurnOfChild(p, up, false);
      SizeOfOpen(p, up);
    }
  }

  // ----- every iteration takes the next turn -----

  lemma OpenFits(p: Problem, sel: seq<bool>)
    requires Open(p, sel)
    ensures |sel| < |p.vals|
  {}

  lemma ForwardTurn(p: Problem, sel: seq<bool>)
    requires Visited(p, sel) && Open(p, sel)
    ensures Visited(p, sel + [true]) && Turn(p, sel + [true]) == Turn(p, sel) + 1
  {
    OpenFits(p, sel);
    hide Open, Turn;
    var t := sel + [true];
    TurnOfChild(p, sel, true);
    forall k | 0 <= k < |t| ensures Open(p, t[..k]) {
      assert k < |sel| ==> t[..k] == sel[..k];
      assert k == |sel| ==> t[..k] == sel;
    }
  }

  lemma VisitedSibling(p: Problem, sel: seq<bool>, k: nat)
    requires Visited(p, sel) && 0 < k <= |sel|
    ensures Visited(p, sel[..k - 1] + [false])
  {
    hide Open;
    var t := sel[..k - 1] + [false];
    forall j | 0 <= j < |t| ensures Open(p, t[..j]) {
      assert t[..j] == sel[..j];
    }
  }

  lemma ClosedSize(p: Problem, sel: seq<bool>)
    requires !Open(p, sel)
    ensures Size(p, sel) == 1
  {}

  /** From a node that is not entered further the walk goes on with the next turn, and when it ends
      on the root all turns have been taken. */
  lemma RetreatTurn(p: Problem, sel: seq<bool>, k: nat)
    requires Visited(p, sel) && !Open(p, sel) && k == Stripped(sel)
    ensures k == 0 ==> Turn(p, sel) + 1 == Size(p, [])
    ensures k > 0 ==> var t := sel[..k - 1] + [false]; Visited(p, t) && Turn(p, t) == Turn(p, sel) + 1
  {
    hide Size, Turn, Open, Visited;
    ClosedSize(p, sel);
    LastUnder(p, sel, k);
    if k == 0 {
      FirstTurn(p);
    } else {
      VisitedSibling(p, sel, k);
      TurnOfChild(p, sel[..k - 1], false);
      TurnOfChild(p, sel[..k - 1], true);
      assert sel[..k] == sel[..k - 1] + [true];
    }
  }

  lemma FirstTurn(p: Problem)
    ensures Turn(p, []) == 0 && Visited(p, [])
  {}

  /** All turns come before the end of the walk. */
  lemma TurnsEnd(p: Problem, sel: seq<bool>)
    requires Visited(p, sel)
    ensures Turn(p, sel) < Size(p, [])
  {
    hide *;
    assert sel[..0] == [];
    TurnsUnder(p, [], sel);
    FirstTurn(p);
  }

  // ----- the best of what was met -----

  /** The selection is not worse than another one, and of equal ones it is met first. */
  ghost predicate Precedes(p: Problem, v: int, sel: seq<bool>, c: seq<bool>)
    requires |c| <= |p.vals|
  {
    v < Total(p, c) || (v == Total(p, c) && Turn(p, sel) <= Turn(p, c))
  }

  /** Of the candidates among the first m turns this one is the smallest and the first of those. */
  ghost predicate FirstOf(p: Problem, m: nat, sel: seq<bool>, v: int)
  {
    && Candidate(p, sel) && v == Total(p, sel) && Turn(p, sel) < m
    && forall c :: Candidate(p, c) && Turn(p, c) < m ==> Precedes(p, v, sel, c)
  }

  ghost predicate NoneWithin(p: Problem, m: nat)
  {
    forall c :: Candidate(p, c) ==> Turn(p, c) >= m
  }

  /** The recorded best is the best of the first m turns. */
  ghost predicate BestOf(p: Problem, m: nat, s: Node)
  {
    match s.bestValue
    case None => s.bestSel == [] && NoneWithin(p, m)
    case Some(v) => FirstOf(p, m, s.bestSel, v)
  }

  /** Where the walk is after t iterations. */
  ghost predicate Reached(p: Problem, s: Node, t: nat)
  {
    && Consistent(p, s)
    && Visited(p, s.sel) && Turn(p, s.sel) == t
    && BestOf(p, t, s)
    && (s.bestValue.Some? ==> s.bestValue.value > p.target)
  }

  /** Only the node of a turn is met in that turn. */
  lemma OnlyThisTurn(p: Problem, sel: seq<bool>, c: seq<bool>)
    requires p.Valid() && Visited(p, sel) && Candidate(p, c) && Turn(p, c) == Turn(p, sel)
    ensures c == sel
  {
    hide *;
    CandidateIsVisited(p, c);
    assert c[..0] == sel[..0];
    TurnsDiffer(p, c, sel, 0);
  }

  /** A node outside the window adds nothing to the best. */
  lemma NothingMet(p: Problem, s: Node)
    requires p.Valid() && Visited(p, s.sel) && BestOf(p, Turn(p, s.sel), s) && !Candidate(p, s.sel)
    ensures BestOf(p, Turn(p, s.sel) + 1, s)
  {
    hide Turn, Visited, Candidate, Precedes;
    var t := Turn(p, s.sel);
    forall c | Candidate(p, c) && Turn(p, c) < t + 1 ensures Turn(p, c) < t {
      if Turn(p, c) == t {
        OnlyThisTurn(p, s.sel, c);
      }
    }
  }

  /** A node in the window is recorded if it is smaller than the best so far. */
  lemma CandidateMet(p: Problem, s: Node)
    requires p.Valid() && Visited(p, s.sel) && BestOf(p, Turn(p, s.sel), s) && Candidate(p, s.sel)
    requires s.value == Total(p, s.sel)
    ensures BestOf(p, Turn(p, s.sel) + 1, Record(s))
  {
    hide Turn, Visited, Candidate, Total;
    var t := Turn(p, s.sel);
    var r := Record(s);
    forall c | Candidate(p, c) && Turn(p, c) < t + 1 ensures |c| <= |p.vals| && Precedes(p, r.bestValue.value, r.bestSel, c) {
      CandidateFits(p, c);
      if Turn(p, c) == t {
        OnlyThisTurn(p, s.sel, c);
      }
    }
  }

  lemma CandidateFits(p: Problem, c: seq<bool>)
    requires Candidate(p, c)
    ensures |c| <= |p.vals| && p.target <= Total(p, c)
  {}

  lemma SameBestOf(p: Problem, m: nat, s: Node, s': Node)
    requires BestOf(p, m, s) && s'.bestSel == s.bestSel && s'.bestValue == s.bestValue
    ensures BestOf(p, m, s')
  {}

  /** What is known when the loop is left: the best of all turns taken, which are all there are if it
      ended on the root; an exact match is the best of all. */
  ghost predicate Done(p: Problem, o: Outcome, t: nat)
  {
    match o
    case Going(s) => Reached(p, s, t)
    case CutOff(s) => BestOf(p, t, s) && t < Size(p, [])
    case Exhausted(s) => BestOf(p, t, s) && t == Size(p, [])
    case Perfect(s) => BestOf(p, t, s) && s.bestValue == Some(p.target)
  }

  lemma ReachedMeans(p: Problem, s: Node, t: nat)
    requires p.Valid() && Reached(p, s, t)
    ensures |s.sel| <= |p.vals| && (s.avail > 0 ==> |s.sel| < |p.vals|) && s.avail >= 0
    ensures Consistent(p, s) && Visited(p, s.sel) && Turn(p, s.sel) == t && BestOf(p, t, s)
    ensures Open(p, s.sel) <==> s.value < p.target <= s.value + s.avail
    ensures Candidate(p, s.sel) <==> p.InWindow(s.value)
    ensures s.value == Total(p, s.sel)
    ensures s.bestValue.Some? ==> s.bestValue.value > p.target
  {
    RestIsNonNegative(p.vals, |s.sel|);
  }

  lemma RetreatReaches(p: Problem, s: Node)
    requires p.Valid() && Consistent(p, s) && Visited(p, s.sel) && !Open(p, s.sel)
    requires BestOf(p, Turn(p, s.sel) + 1, s) && (s.bestValue.Some? ==> s.bestValue.value > p.target)
    ensures Done(p, Retreat(p, s), Turn(p, s.sel) + 1)
  {
    hide Consistent, Visited, Open, Turn, Size, BestOf, Rest;
    var k := Stripped(s.sel);
    ConsistentMeans(p, s);
    RetreatKeepsConsistent(p, s);
    RetreatTurn(p, s.sel, k);
    SameBestOf(p, Turn(p, s.sel) + 1, s, Retreat(p, s).node);
  }

  lemma LaterIsMore(p: Problem, s: Node, t: nat)
    requires p.Valid() && Reached(p, s, t) && s.value == p.target
    ensures Record(s).bestValue == Some(p.target)
  {}

  /** Every iteration takes exactly one turn and keeps the best of the turns taken. */
  lemma StepTakesATurn(p: Problem, s: Node, t: nat)
    requires p.Valid() && Reached(p, s, t)
    ensures |s.sel| <= |p.vals| && (s.avail > 0 ==> |s.sel| < |p.vals|)
    ensures Done(p, Step(p, s), t + 1)
  {
    hide Reached, Consistent, Visited, Open, Turn, Size, BestOf, Rest, Candidate, Retreat, Record, Chosen, Total, Done;
    ReachedMeans(p, s, t);
    if s.value + s.avail < p.target || s.value > p.target + p.cost {
      NothingMet(p, s);
      RetreatReaches(p, s);
    } else if s.value >= p.target {
      CandidateMet(p, s);
      if s.value == p.target {
        LaterIsMore(p, s, t);
        PerfectIsDone(p, Record(s), t + 1);
      } else {
        RecordKeeps(p, s);
        RetreatReaches(p, Record(s));
      }
    } else {
      NothingMet(p, s);
      ForwardReaches(p, s);
    }
  }

  lemma PerfectIsDone(p: Problem, s: Node, t: nat)
    requires BestOf(p, t, s) && s.bestValue == Some(p.target)
    ensures Done(p, Perfect(s), t)
  {}

  lemma RecordKeeps(p: Problem, s: Node)
    requires p.Valid() && Consistent(p, s) && p.InWindow(s.value) && s.value > p.target
    requires s.bestValue.Some? ==> s.bestValue.value > p.target
    ensures Record(s).sel == s.sel && Consistent(p, Record(s))
    ensures Record(s).bestValue.Some? ==> Record(s).bestValue.value > p.target
  {
    hide Consistent;
    RecordIsConsistent(p, s);
  }

  lemma ForwardReaches(p: Problem, s: Node)
    requires p.Valid() && Consistent(p, s) && Visited(p, s.sel) && Open(p, s.sel)
    requires |s.sel| < |p.vals| && s.value < p.target
    requires BestOf(p, Turn(p, s.sel) + 1, s) && (s.bestValue.Some? ==> s.bestValue.value > p.target)
    ensures Done(p, Going(s.(sel := s.sel + [true],
                             value := s.value + p.vals[|s.sel|],
                             avail := s.avail - p.vals[|s.sel|])), Turn(p, s.sel) + 1)
  {
    hide Consistent, Visited, Open, Turn, BestOf;
    var s' := s.(sel := s.sel + [true], value := s.value + p.vals[|s.sel|], avail := s.avail - p.vals[|s.sel|]);
    ForwardKeepsConsistent(p, s);
    ForwardTurn(p, s.sel);
    SameBestOf(p, Turn(p, s.sel) + 1, s, s');
  }

  /** A run takes one turn for every try until it stops by itself. */
  lemma {:induction false} SearchTakesTurns(p: Problem, s: Node, t: nat, tries: nat) returns (end: nat)
    requires p.Valid() && Reached(p, s, t)
    ensures Consistent(p, s) && t <= end <= t + tries
    ensures !Search(p, s, tries).Going? && Done(p, Search(p, s, tries), end)
    ensures Search(p, s, tries).CutOff? ==> end == t + tries
    decreases tries
  {
    hide Reached, Consistent, Step, Search, Done;
    ReachedMeans(p, s, t);
    SearchUnfolds(p, s, tries);
    end := t;
    if tries == 0 {
      CutOffIsDone(p, s, t);
    } else {
      StepTakesATurn(p, s, t);
      StepKinds(p, s);
      end := t + 1;
      if Step(p, s).Going? {
        DoneGoing(p, Step(p, s), t + 1);
        end := SearchTakesTurns(p, Step(p, s).node, t + 1, tries - 1);
      }
    }
  }

  lemma CutOffIsDone(p: Problem, s: Node, t: nat)
    requires Reached(p, s, t)
    ensures Done(p, CutOff(s), t)
  {
    hide Size, Turn, Visited, Consistent, BestOf;
    TurnsEnd(p, s.sel);
  }

  lemma DoneGoing(p: Problem, o: Outcome, t: nat)
    requires o.Going? && Done(p, o, t)
    ensures Reached(p, o.node, t)
  {}

  lemma StepKinds(p: Problem, s: Node)
    requires |s.sel| <= |p.vals| && (s.avail > 0 ==> |s.sel| < |p.vals|)
    ensures !Step(p, s).CutOff?
  {}

  lemma StartIsReached(p: Problem)
    ensures Reached(p, Start(p), 0)
  {}

  // ----- the result -----

  /** What holds of the turns taken holds of the tries allowed. */
  lemma AllTurns(p: Problem, o: Outcome, end: nat, tries: nat)
    requires p.Valid() && Done(p, o, end) && !o.Going? && end <= tries && (o.CutOff? ==> end == tries)
    ensures BestOf(p, tries, o.node)
    ensures o.Exhausted? ==> Size(p, []) <= tries
    ensures o.CutOff? ==> Size(p, []) > tries
    ensures o.Perfect? ==> o.node.bestValue.Some?
  {
    hide Turn, Size, Candidate, Total, Visited;
    forall c | Candidate(p, c) && Turn(p, c) < tries
      ensures Turn(p, c) < end || o.Perfect?
    {
      if o.Exhausted? {
        CandidateIsVisited(p, c);
        TurnsEnd(p, c);
      }
    }
    if o.Perfect? {
      forall c | Candidate(p, c) && Turn(p, c) < tries ensures |c| <= |p.vals| && Precedes(p, p.target, o.node.bestSel, c) {
        CandidateFits(p, c);
      }
    }
  }

  /** The whole of what a search below the target answers, for every cap: the selection that is
      smallest, and first among those, of all that the walk meets within the cap; NoExactMatch if
      there is none and the walk fits into the cap; and otherwise that the tries were exceeded. */
  lemma SolveIsFirst(p: Problem, tries: nat)
    requires p.Valid() && p.base < p.target
    ensures Solve(p, tries).Found? ==> FirstOf(p, tries, Solve(p, tries).sel, Solve(p, tries).value)
    ensures !Solve(p, tries).Found? ==> NoneWithin(p, tries)
    ensures Solve(p, tries).NoExactMatch? <==> NoneWithin(p, tries) && Size(p, []) <= tries
  {
    StartIsConsistent(p);
    StartIsReached(p);
    var o := Search(p, Start(p), tries);
    var end := SearchTakesTurns(p, Start(p), 0, tries);
    AllTurns(p, o, end, tries);
  }

  /** There is at most one such selection. */
  lemma FirstIsUnique(p: Problem, m: nat, a: seq<bool>, v: int, b: seq<bool>, w: int)
    requires p.Valid() && FirstOf(p, m, a, v) && FirstOf(p, m, b, w)
    ensures a == b && v == w
  {
    CandidateIsVisited(p, b);
    hide Turn, Visited, Candidate, Total;
    assert Precedes(p, v, a, b) && Precedes(p, w, b, a);
    OnlyThisTurn(p, b, a);
  }

  /** The answer of a search, said without its steps. When the required groups meet the target
      exactly the empty selection is recorded, which counts as none. */
  ghost predicate Answers(p: Problem, tries: nat, r: BnbResult)
  {
    if p.base == p.target then r.TotalTriesExceeded? else
      match r
      case Found(sel, v) => FirstOf(p, tries, sel, v)
      case NoExactMatch => NoneWithin(p, tries) && Size(p, []) <= tries
      case TotalTriesExceeded => NoneWithin(p, tries) && Size(p, []) > tries
  }

  /** Every search answers so, and there is only one such answer. */
  lemma AnswersExactly(p: Problem, tries: nat, r: BnbResult)
    requires p.Valid()
    ensures r == Solve(p, tries) <==> Answers(p, tries, r)
  {
    hide Solve, FirstOf, NoneWithin, Size;
    if p.base == p.target {
      ExactStartIsNotExhausted(p, tries);
    } else {
      SolveIsFirst(p, tries);
      FirstIsNotNone(p, tries);
      if r.Found? && Solve(p, tries).Found? && Answers(p, tries, r) {
        FirstIsUnique(p, tries, r.sel, r.value, Solve(p, tries).sel, Solve(p, tries).value);
      }
    }
  }

  lemma FirstIsNotNone(p: Problem, m: nat)
    ensures NoneWithin(p, m) ==> forall sel, v :: !FirstOf(p, m, sel, v)
  {}

  // ----- in terms of the full tree and of all selections -----

  lemma {:induction false} SizeIsBounded(p: Problem, sel: seq<bool>)
    requires |sel| <= |p.vals|
    ensures Size(p, sel) <= Pow2(|p.vals| - |sel| + 1) - 1
    decreases |p.vals| - |sel|
  {
    if Open(p, sel) {
      SizeIsBounded(p, sel + [true]);
      SizeIsBounded(p, sel + [false]);
    } else {
      Pow2Monotone(1, |p.vals| - |sel| + 1);
    }
  }

  /** The walk meets a node no later than the walk of the full tree would. */
  lemma {:induction false} TurnIsBounded(p: Problem, sel: seq<bool>)
    requires |sel| <= |p.vals|
    ensures Turn(p, sel) <= Rank(sel, |p.vals|)
    decreases |sel|
  {
    if sel != [] {
      var k := |sel| - 1;
      TurnIsBounded(p, sel[..k]);
      SizeIsBounded(p, sel[..k] + [true]);
    }
  }

  /** A selection whose place in the full tree is within the cap is found, or one with a smaller
      total, or one with the same total that is met earlier. */
  lemma CapSuffices(p: Problem, tries: nat, c: seq<bool>)
    requires p.Valid() && p.base < p.target && Candidate(p, c) && Rank(c, |p.vals|) < tries
    ensures Solve(p, tries).Found? && Precedes(p, Solve(p, tries).value, Solve(p, tries).sel, c)
    ensures Solve(p, tries).value <= p.base + Chosen(p.vals, c)
  {
    hide Solve, Turn, Rank;
    TurnIsBounded(p, c);
    SolveIsFirst(p, tries);
  }

  /** Every selection in the window goes through one that the walk can record, for no more. */
  lemma {:induction false} CandidateOf(p: Problem, b: seq<bool>, k: nat) returns (c: seq<bool>)
    requires p.Valid() && Solution(p, b)
    requires k <= |b| && WentBelow(p, b[..k])
    ensures Candidate(p, c) && Total(p, c) <= p.base + Chosen(p.vals, b) && c <= b
    decreases |b| - k
  {
    c := b[..k];
    SubtreeBounds(p.vals, c, b);
    RestIsNonNegative(p.vals, |b|);
    if p.base + Chosen(p.vals, c) < p.target {
      assert k == |b| ==> c == b;
      OneFurther(p, b, k);
      c := CandidateOf(p, b, k + 1);
    }
  }

  lemma OneFurther(p: Problem, b: seq<bool>, k: nat)
    requires k < |b| <= |p.vals| && WentBelow(p, b[..k]) && p.base + Chosen(p.vals, b[..k]) < p.target
    ensures WentBelow(p, b[..k + 1])
  {
    var t := b[..k + 1];
    forall j | 0 <= j < |t| ensures p.base + Chosen(p.vals, t[..j]) < p.target {
      assert t[..j] == b[..j];
      assert j < k ==> b[..k][..j] == b[..j];
    }
  }

  /** The exact number of tries that decides: as many as the walk has nodes. With those a search below
      the target finds a selection exactly when there is one in the window, and the smallest. */
  lemma ExactTriesDecide(p: Problem, tries: nat)
    requires p.Valid() && p.base < p.target && Size(p, []) <= tries
    ensures !Solve(p, tries).TotalTriesExceeded?
    ensures Solve(p, tries).Found? <==> exists b :: Solution(p, b)
    ensures Solve(p, tries).Found? ==>
      forall b :: Solution(p, b) ==> Solve(p, tries).value <= p.base + Chosen(p.vals, b)
  {
    hide Solve, Turn, Size, Candidate, Visited, Chosen;
    SolveIsFirst(p, tries);
    forall b | Solution(p, b)
      ensures Solve(p, tries).Found? && Solve(p, tries).value <= p.base + Chosen(p.vals, b)
    {
      SolutionIsMet(p, tries, b);
    }
    if Solve(p, tries).Found? {
      FoundIsASolution(p, tries);
    }
  }

  lemma SolutionIsMet(p: Problem, tries: nat, b: seq<bool>)
    requires p.Valid() && p.base < p.target && Size(p, []) <= tries && Solution(p, b)
    ensures Solve(p, tries).Found? && Solve(p, tries).value <= p.base + Chosen(p.vals, b)
  {
    hide Solve, Turn, Size, Visited;
    SolveIsFirst(p, tries);
    assert b[..0] == [];
    var c := CandidateOf(p, b, 0);
    CandidateIsVisited(p, c);
    TurnsEnd(p, c);
  }

  /** A cap can cost the solution: of one group worth 5 for a window from 4 to 6 the search needs the
      second try, and it has it with a cap of two. */
  lemma SecondTry()
    ensures var p := Problem([5], 0, 4, 2);
      p.Valid() && Solve(p, 1) == TotalTriesExceeded && Solve(p, 2) == Found([true], 5)
  {
    var p := Problem([5], 0, 4, 2);
    assert [true][..0] == [];
    assert Chosen(p.vals, [true]) == 5;
    assert Rest(p.vals, 0) == 5;
    StartIsConsistent(p);
    SearchUnfolds(p, Start(p), 1);
    SearchUnfolds(p, Start(p), 2);
    var s := Step(p, Start(p)).node;
    assert s == Node([] + [true], 5, 0, [], None);
    SearchUnfolds(p, s, 0);
    SearchUnfolds(p, s, 1);
  }
}
