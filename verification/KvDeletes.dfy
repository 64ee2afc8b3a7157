/** What the merge of crates/kv/src/merged_state.rs makes of a key that was deleted once: what it holds for
    one key follows from the entries of that key alone, and exactly when the deletion survives every
    order of the visit. */
module KvDeletes {
  import opened Basics
  import opened KvEntry
  import opened KvMerge

  /** What a merged state holds for one key. */
  datatype Slot = Slot(value: Option<Record>, dead: Option<Record>)

  const EMPTY: Slot := Slot(None, None)

  ghost function SlotOf(m: Merged, k: Key): Slot
  {
    Slot(if k in m.values then Some(m.values[k]) else None, if k in m.deleted then Some(m.deleted[k]) else None)
  }

  function TakeSlot(s: Slot, e: Record): Slot
  {
    if e.deleted then s.(dead := Some(e)) else s.(value := Some(e))
  }

  function MergeSlot(s: Slot, e: Record): Slot
  {
    if s.value.Some? then
      if e.timestamp <= s.value.value.timestamp then s else if e.deleted then s.(value := None) else s.(value := Some(e))
    else if s.dead.Some? then
      Slot(if e.timestamp > s.dead.value.timestamp && !e.deleted then Some(e) else None, None)
    else Slot(Some(e), None)
  }

  /** The entries of a key, in order. */
  function Of(es: seq<Record>, k: Key): seq<Record>
  {
    if es == [] then [] else
      var n := |es| - 1;
      Of(es[..n], k) + if es[n].key == k then [es[n]] else []
  }

  function TakenSlot(s: Slot, es: seq<Record>): Slot
  {
    if es == [] then s else TakeSlot(TakenSlot(s, es[..|es| - 1]), es[|es| - 1])
  }

  function MergedSlot(s: Slot, es: seq<Record>): Slot
  {
    if es == [] then s else MergeSlot(MergedSlot(s, es[..|es| - 1]), es[|es| - 1])
  }

  function VisitedSlot(segments: seq<seq<Record>>, k: Key): Slot
  {
    if segments == [] then EMPTY
    else if |segments| == 1 then TakenSlot(EMPTY, Of(segments[0], k))
    else MergedSlot(VisitedSlot(segments[..|segments| - 1], k), Of(segments[|segments| - 1], k))
  }

  ghost predicate Keyed(m: Merged)
  {
    (forall j <- m.values :: m.values[j].key == j) && (forall j <- m.deleted :: m.deleted[j].key == j)
  }

  lemma Push(s: Slot, es: seq<Record>, e: Record)
    ensures TakenSlot(s, es + [e]) == TakeSlot(TakenSlot(s, es), e)
    ensures MergedSlot(s, es + [e]) == MergeSlot(MergedSlot(s, es), e)
  {
    assert (es + [e])[..|es|] == es;
  }

  lemma {:induction false} TakeIsBySlot(m: Merged, es: seq<Record>, k: Key)
    requires Keyed(m)
    ensures Keyed(AllTaken(m, es)) && SlotOf(AllTaken(m, es), k) == TakenSlot(SlotOf(m, k), Of(es, k))
  {
    if es != [] {
      var n := |es| - 1;
      TakeIsBySlot(m, es[..n], k);
      Push(SlotOf(m, k), Of(es[..n], k), es[n]);
      assert Of(es[..n], k) + [] == Of(es[..n], k);
      hide SlotOf, Keyed, TakenSlot;
      TakeOneIsBySlot(AllTaken(m, es[..n]), es[n], k);
    }
  }

  lemma TakeOneIsBySlot(m: Merged, e: Record, k: Key)
    requires Keyed(m)
    ensures Keyed(TakeOne(m, e))
    ensures SlotOf(TakeOne(m, e), k) == if e.key == k then TakeSlot(SlotOf(m, k), e) else SlotOf(m, k)
  {}

  lemma {:induction false} MergeIsBySlot(m: Merged, es: seq<Record>, k: Key)
    requires Keyed(m)
    ensures Keyed(AllMerged(m, es)) && SlotOf(AllMerged(m, es), k) == MergedSlot(SlotOf(m, k), Of(es, k))
  {
    if es != [] {
      var n := |es| - 1;
      MergeIsBySlot(m, es[..n], k);
      Push(SlotOf(m, k), Of(es[..n], k), es[n]);
      assert Of(es[..n], k) + [] == Of(es[..n], k);
      hide SlotOf, Keyed, MergedSlot;
      MergeOneIsBySlot(AllMerged(m, es[..n]), es[n], k);
    }
  }

  lemma MergeOneIsBySlot(m: Merged, e: Record, k: Key)
    requires Keyed(m)
    ensures Keyed(MergeOne(m, e))
    ensures SlotOf(MergeOne(m, e), k) == if e.key == k then MergeSlot(SlotOf(m, k), e) else SlotOf(m, k)
  {}

  /** What a merge holds for a key depends only on the entries of that key. */
  lemma {:induction false} VisitIsBySlot(segments: seq<seq<Record>>, k: Key)
    ensures Keyed(MergeAll(segments)) && SlotOf(MergeAll(segments), k) == VisitedSlot(segments, k)
  {
    if segments != [] {
      var n := |segments| - 1;
      if n == 0 {
        TakeIsBySlot(Merged(map[], map[]), segments[0], k);
      } else {
        VisitIsBySlot(segments[..n], k);
        MergeIsBySlot(MergeAll(segments[..n]), segments[n], k);
      }
    }
  }

  /** Whatever the entries, tombstones and ties included: writing back what a visit keeps leaves a plain
      map as it was if and only if every key whose own entries leave a value has that value already. */
  lemma KeptExactlyBySlot(contents: map<Key, Value>, visit: seq<seq<Record>>)
    ensures Keeps(contents, visit) <==>
      forall k :: VisitedSlot(visit, k).value.Some? ==> k in contents && contents[k] == VisitedSlot(visit, k).value.value.value
  {
    forall k ensures SlotOf(MergeAll(visit), k) == VisitedSlot(visit, k) {
      VisitIsBySlot(visit, k);
    }
    hide MergeAll, VisitedSlot;
    var m := MergeAll(visit);
    if Keeps(contents, visit) {
      forall k | VisitedSlot(visit, k).value.Some? ensures k in contents && contents[k] == VisitedSlot(visit, k).value.value.value {
        assert SlotOf(m, k) == VisitedSlot(visit, k);
        assert (contents + ValuesOf(m))[k] == m.values[k].value;
      }
    }
    if forall k :: VisitedSlot(visit, k).value.Some? ==> k in contents && contents[k] == VisitedSlot(visit, k).value.value.value {
      forall k | k in m.values ensures k in contents && contents[k] == m.values[k].value {
        assert SlotOf(m, k) == VisitedSlot(visit, k);
      }
    }
  }

  /** Tombstones alone, come across one after the other, put the key in and take it out in turn. */
  lemma {:induction false} TombstonesAlternate(es: seq<Record>)
    requires (forall e <- es :: e.deleted) && forall i, j :: 0 <= i < j < |es| ==> es[i].timestamp < es[j].timestamp
    ensures MergedSlot(EMPTY, es) == Slot(if |es| % 2 == 1 then Some(es[|es| - 1]) else None, None)
  {
    if es != [] {
      TombstonesAlternate(es[..|es| - 1]);
    }
  }

  // ----- a key that was deleted once -----

  ghost predicate Puts(es: seq<Record>) { forall e <- es :: !e.deleted }

  /** Puts alone never remove a value. */
  lemma {:induction false} PutsKeepAlive(s: Slot, es: seq<Record>)
    requires s.value.Some? && Puts(es)
    ensures MergedSlot(s, es).value.Some?
  {
    if es != [] {
      PutsKeepAlive(s, es[..|es| - 1]);
    }
  }

  lemma {:induction false} VisitKeepsAlive(visit: seq<seq<Record>>, n: nat, k: Key)
    requires 0 < n <= |visit| && VisitedSlot(visit[..n], k).value.Some?
    requires forall i :: n <= i < |visit| ==> Puts(Of(visit[i], k))
    ensures VisitedSlot(visit, k).value.Some?
    decreases |visit|
  {
    if n == |visit| {
      assert visit[..n] == visit;
    } else {
      var m := |visit| - 1;
      assert visit[..m][..n] == visit[..n];
      VisitKeepsAlive(visit[..m], n, k);
      PutsKeepAlive(VisitedSlot(visit[..m], k), Of(visit[m], k));
    }
  }

  /** The first put after a tombstone that it is older than only clears it; the next one comes to life. */
  lemma {:induction false} PutsAfterTombstone(d: Record, es: seq<Record>)
    requires Puts(es) && forall e <- es :: e.timestamp < d.timestamp
    ensures MergedSlot(Slot(None, Some(d)), es).value.Some? <==> |es| >= 2
    ensures es == [] ==> MergedSlot(Slot(None, Some(d)), es) == Slot(None, Some(d))
    ensures |es| == 1 ==> MergedSlot(Slot(None, Some(d)), es) == EMPTY
  {
    if es != [] {
      PutsAfterTombstone(d, es[..|es| - 1]);
    }
  }

  lemma {:induction false} PutsAreTaken(es: seq<Record>)
    requires Puts(es)
    ensures TakenSlot(EMPTY, es).dead.None? && (TakenSlot(EMPTY, es).value.Some? <==> es != [])
  {
    if es != [] {
      PutsAreTaken(es[..|es| - 1]);
    }
  }

  /** A key is put any number of times and deleted once, later than all puts: segment i ends, for this
      key, in the tombstone. */
  ghost predicate DeletedOnce(segments: seq<seq<Record>>, k: Key, i: int, puts: seq<Record>, dead: Record)
  {
    && 0 <= i < |segments| && Of(segments[i], k) == puts + [dead] && dead.deleted
    && Puts(puts) && (forall e <- puts :: e.timestamp < dead.timestamp)
    && forall j :: 0 <= j < |segments| && j != i ==> OlderPuts(Of(segments[j], k), dead)
  }

  ghost predicate OlderPuts(es: seq<Record>, dead: Record) { Puts(es) && forall e <- es :: e.timestamp < dead.timestamp }

  /** The deletion comes first: the key is left out exactly when its segment holds no put of it and
      there is at most one other put. */
  lemma DeletionFirst(visit: seq<seq<Record>>, k: Key, puts: seq<Record>, dead: Record)
    requires DeletedOnce(visit, k, 0, puts, dead)
    ensures puts != [] ==> VisitedSlot(visit, k).value.Some?
    ensures puts == [] && |visit| == 2 ==> (VisitedSlot(visit, k).value.Some? <==> |Of(visit[1], k)| >= 2)
    ensures puts == [] && |visit| >= 3 && Of(visit[1], k) != [] && Of(visit[2], k) != [] ==> VisitedSlot(visit, k).value.Some?
  {
    Push(EMPTY, puts, dead);
    PutsAreTaken(puts);
    var first := Slot(TakenSlot(EMPTY, puts).value, Some(dead));
    assert visit[..1] == [visit[0]] && VisitedSlot(visit[..1], k) == first;
    if puts != [] {
      VisitKeepsAlive(visit, 1, k);
    } else if |visit| >= 2 {
      assert visit[..2][..1] == visit[..1];
      PutsAfterTombstone(dead, Of(visit[1], k));
      if |visit| == 2 {
        assert visit[..2] == visit;
      } else if Of(visit[1], k) != [] && Of(visit[2], k) != [] {
        ThirdComesToLife(visit, k, dead);
      }
    }
  }

  lemma ThirdComesToLife(visit: seq<seq<Record>>, k: Key, dead: Record)
    requires |visit| >= 3 && VisitedSlot(visit[..1], k) == Slot(None, Some(dead))
    requires forall j :: 1 <= j < |visit| ==> OlderPuts(Of(visit[j], k), dead)
    requires Of(visit[1], k) != [] && Of(visit[2], k) != []
    ensures VisitedSlot(visit, k).value.Some?
  {
    assert visit[..2][..1] == visit[..1] && visit[..3][..2] == visit[..2];
    PutsAfterTombstone(dead, Of(visit[1], k));
    var s, es := VisitedSlot(visit[..2], k), Of(visit[2], k);
    if s.value.Some? {
      VisitKeepsAlive(visit, 2, k);
    } else {
      assert s == EMPTY;
      FirstComesToLife(es);
      VisitKeepsAlive(visit, 3, k);
    }
  }

  lemma {:induction false} FirstComesToLife(es: seq<Record>)
    requires es != [] && Puts(es)
    ensures MergedSlot(EMPTY, es).value.Some?
  {
    if |es| == 1 {
      assert es[..0] == [];
    } else {
      FirstComesToLife(es[..|es| - 1]);
    }
  }

  /** The deletion comes second, after a segment without the key: the tombstone becomes a value. */
  lemma DeletionAfterNothing(visit: seq<seq<Record>>, k: Key, dead: Record)
    requires |visit| >= 2 && DeletedOnce(visit, k, 1, [], dead) && Of(visit[0], k) == []
    ensures VisitedSlot(visit, k).value.Some?
  {
    assert visit[..2][..1] == visit[..1] && visit[..1] == [visit[0]];
    assert Of(visit[1], k) == [dead] && [dead][..0] == [];
    assert MergedSlot(EMPTY, [dead]) == MergeSlot(MergedSlot(EMPTY, []), dead);
    VisitKeepsAlive(visit, 2, k);
  }

  /** The deletion comes second, after a segment with one put of the key: the put is gone. */
  lemma DeletionAfterPut(visit: seq<seq<Record>>, k: Key, dead: Record)
    requires |visit| == 2 && DeletedOnce(visit, k, 1, [], dead) && |Of(visit[0], k)| == 1
    ensures VisitedSlot(visit, k).value.None?
  {
    var es := Of(visit[0], k);
    assert visit[..1] == [visit[0]] && Of(visit[1], k) == [dead] && [dead][..0] == [] && es[..0] == [];
    assert es[0] in es;
    assert TakenSlot(EMPTY, es) == TakeSlot(TakenSlot(EMPTY, []), es[0]);
    assert MergedSlot(TakenSlot(EMPTY, es), [dead]) == MergeSlot(MergedSlot(TakenSlot(EMPTY, es), []), dead);
  }

  /** Two segments: the deletion alone in one, a single put in the other. */
  ghost predicate Harmless(segments: seq<seq<Record>>, k: Key, i: int)
    requires 0 <= i < |segments|
  {
    |segments| == 2 && |Of(segments[i], k)| == 1 && |Of(segments[1 - i], k)| == 1
  }

  /** The segments with two of them moved to the front. */
  lemma TwoToFront(segments: seq<seq<Record>>, a: nat, b: nat) returns (visit: seq<seq<Record>>)
    requires a < |segments| && b < |segments| && a != b
    ensures |visit| == |segments| && multiset(visit) == multiset(segments)
    ensures visit[0] == segments[a] && visit[1] == segments[b]
    ensures forall s <- visit[2..] :: exists j :: 0 <= j < |segments| && j != a && j != b && segments[j] == s
  {
    var others, b' := RemoveAt(segments, a), if b < a then b else b - 1;
    assert |others| == |segments| - 1 && others[b'] == segments[b];
    var rest := RemoveAt(others, b');
    assert |rest| == |segments| - 2;
    FrontIsAPermutation(segments, a, b', others, rest);
    forall s | s in rest ensures exists j :: 0 <= j < |segments| && j != a && j != b && segments[j] == s {
      RestIsOther(segments, a, b, b', others, rest, s);
    }
    hide RemoveAt;
    visit := [segments[a], others[b']] + rest;
    assert visit[2..] == rest;
  }

  lemma FrontIsAPermutation(segments: seq<seq<Record>>, a: nat, b: nat, others: seq<seq<Record>>, rest: seq<seq<Record>>)
    requires a < |segments| && others == RemoveAt(segments, a) && b < |others| && rest == RemoveAt(others, b)
    ensures multiset([segments[a], others[b]] + rest) == multiset(segments)
  {
    RemoveAtKeepsOthers(segments, a);
    RemoveAtKeepsOthers(others, b);
    hide RemoveAt;
    assert segments[a] in multiset(segments) && others[b] in multiset(others);
  }

  lemma RestIsOther(segments: seq<seq<Record>>, a: nat, b: nat, b': nat, others: seq<seq<Record>>, rest: seq<seq<Record>>, s: seq<Record>)
    requires a < |segments| && b < |segments| && a != b && b' == (if b < a then b else b - 1)
    requires others == RemoveAt(segments, a) && b' < |others| && rest == RemoveAt(others, b') && s in rest
    ensures exists j :: 0 <= j < |segments| && j != a && j != b && segments[j] == s
  {
    var x :| 0 <= x < |rest| && rest[x] == s;
    var y := Back(others, b', x);
    var j := Back(segments, a, y);
    assert segments[j] == s;
  }

  /** Where an element that is left after a removal was. */
  lemma Back(s: seq<seq<Record>>, j: nat, x: nat) returns (y: nat)
    requires j < |s| && x < |RemoveAt(s, j)|
    ensures y == (if x < j then x else x + 1) && y < |s| && y != j && s[y] == RemoveAt(s, j)[x]
  {
    y := if x < j then x else x + 1;
  }

  /** A visit that starts with two given segments is of the same kind. */
  lemma FrontVisit(segments: seq<seq<Record>>, k: Key, i: nat, puts: seq<Record>, dead: Record, j: nat, first: bool) returns (visit: seq<seq<Record>>)
    requires DeletedOnce(segments, k, i, puts, dead) && j < |segments| && j != i
    ensures multiset(visit) == multiset(segments) && |visit| == |segments|
    ensures DeletedOnce(visit, k, if first then 0 else 1, puts, dead)
    ensures visit[if first then 1 else 0] == segments[j]
    ensures forall s <- visit[2..] :: exists x :: 0 <= x < |segments| && x != i && x != j && segments[x] == s
  {
    hide Of;
    if first {
      visit := TwoToFront(segments, i, j);
    } else {
      visit := TwoToFront(segments, j, i);
    }
    forall x | 0 <= x < |visit| && x != (if first then 0 else 1) ensures OlderPuts(Of(visit[x], k), dead) {
      if x >= 2 {
        assert visit[2..][x - 2] == visit[x] && visit[x] in visit[2..];
        var y :| 0 <= y < |segments| && y != i && y != j && segments[y] == visit[x];
        assert OlderPuts(Of(segments[y], k), dead);
      }
    }
  }

  /** If it is not harmless, some visit brings the key back. */
  lemma SomeVisitRevives(segments: seq<seq<Record>>, k: Key, i: nat, puts: seq<Record>, dead: Record) returns (visit: seq<seq<Record>>)
    requires |segments| >= 2 && DeletedOnce(segments, k, i, puts, dead) && !Harmless(segments, k, i)
    ensures multiset(visit) == multiset(segments) && VisitedSlot(visit, k).value.Some?
  {
    hide Of, VisitedSlot;
    var j := if i == 0 then 1 else 0;
    if puts != [] {
      visit := FrontVisit(segments, k, i, puts, dead, j, true);
      DeletionFirst(visit, k, puts, dead);
    } else if e: nat :| e < |segments| && e != i && Of(segments[e], k) == [] {
      visit := FrontVisit(segments, k, i, puts, dead, e, false);
      DeletionAfterNothing(visit, k, dead);
    } else {
      visit := FrontVisit(segments, k, i, puts, dead, j, true);
      if |visit| >= 3 {
        assert visit[2..][0] == visit[2] && visit[2] in visit[2..];
        var x :| 0 <= x < |segments| && x != i && x != j && segments[x] == visit[2];
      } else {
        assert j == 1 - i && |Of(segments[i], k)| == 1;
      }
      DeletionFirst(visit, k, puts, dead);
    }
  }

  lemma TwoVisits(segments: seq<seq<Record>>, visit: seq<seq<Record>>)
    requires |segments| == 2 && multiset(visit) == multiset(segments)
    ensures visit == segments || visit == [segments[1], segments[0]]
  {
    assert |multiset(visit)| == |visit| && |multiset(segments)| == 2;
    assert segments == [segments[0], segments[1]] && visit == [visit[0], visit[1]];
    assert visit[0] in multiset(segments) && visit[1] in multiset(segments);
    assert multiset(visit) == multiset{visit[0], visit[1]};
    assert multiset(segments) == multiset{segments[0], segments[1]};
  }

  lemma HarmlessStaysDeleted(segments: seq<seq<Record>>, k: Key, i: nat, puts: seq<Record>, dead: Record, visit: seq<seq<Record>>)
    requires DeletedOnce(segments, k, i, puts, dead) && Harmless(segments, k, i) && multiset(visit) == multiset(segments)
    ensures VisitedSlot(visit, k).value.None?
  {
    hide Of, VisitedSlot;
    TwoVisits(segments, visit);
    assert puts == [];
    if visit[0] == segments[i] && visit[1] == segments[1 - i] {
      assert DeletedOnce(visit, k, 0, puts, dead);
      DeletionFirst(visit, k, puts, dead);
    } else {
      assert DeletedOnce(visit, k, 1, puts, dead);
      DeletionAfterPut(visit, k, dead);
    }
  }

  /** A key that was deleted once stays deleted in every order of a merge of two or more segments if and
      only if there are two segments, the deletion stands alone in one and a single put in the other. */
  lemma DeletedOnceExactly(segments: seq<seq<Record>>, k: Key, i: nat, puts: seq<Record>, dead: Record)
    requires |segments| >= 2 && DeletedOnce(segments, k, i, puts, dead)
    ensures (forall visit :: multiset(visit) == multiset(segments) ==> k !in MergeAll(visit).values) <==> Harmless(segments, k, i)
  {
    assert i < |segments|;
    hide DeletedOnce, Of, VisitedSlot, MergeAll;
    if Harmless(segments, k, i) {
      forall visit | multiset(visit) == multiset(segments) ensures k !in MergeAll(visit).values {
        HarmlessStaysDeleted(segments, k, i, puts, dead, visit);
        VisitIsBySlot(visit, k);
      }
    } else {
      var visit := SomeVisitRevives(segments, k, i, puts, dead);
      VisitIsBySlot(visit, k);
    }
  }
}
