/** The merged state of crates/kv/src/merged_state.rs: the class with its two maps, tied to a fold
    over the entries, and what that fold keeps. */
module KvMerge {
  import opened Basics
  import opened KvEntry

  /** The two maps as a value. */
  datatype Merged = Merged(values: map<Key, Record>, deleted: map<Key, Record>)

  ghost function TakeOne(m: Merged, e: Record): Merged
  {
    if e.deleted then m.(deleted := m.deleted[e.key := e]) else m.(values := m.values[e.key := e])
  }

  ghost function Update(m: Merged, existing: Record, e: Record): Merged
  {
    if e.timestamp > existing.timestamp then
      if e.deleted then m.(values := m.values - {existing.key}) else m.(values := m.values[existing.key := e])
    else m
  }

  ghost function MergeOne(m: Merged, e: Record): Merged
  {
    if e.key in m.values then Update(m, m.values[e.key], e)
    else if e.key in m.deleted then Update(m.(deleted := m.deleted - {e.key}), m.deleted[e.key], e)
    else m.(values := m.values[e.key := e])
  }

  ghost function AllTaken(m: Merged, es: seq<Record>): Merged
  {
    if es == [] then m else TakeOne(AllTaken(m, es[..|es| - 1]), es[|es| - 1])
  }

  ghost function AllMerged(m: Merged, es: seq<Record>): Merged
  {
    if es == [] then m else MergeOne(AllMerged(m, es[..|es| - 1]), es[|es| - 1])
  }

  /** The first segment is taken as it is, the others are merged into it in the order of the visit. */
  ghost function MergeAll(segments: seq<seq<Record>>): Merged
  {
    if segments == [] then Merged(map[], map[])
    else if |segments| == 1 then AllTaken(Merged(map[], map[]), segments[0])
    else AllMerged(MergeAll(segments[..|segments| - 1]), segments[|segments| - 1])
  }

  class MergedState {
    var valueByKey: map<Key, Record>
    var deletedKeys: map<Key, Record>

    ghost function State(): Merged
      reads this
    {
      Merged(valueByKey, deletedKeys)
    }

    constructor ()
      ensures State() == Merged(map[], map[])
    {
      valueByKey, deletedKeys := map[], map[];
    }

    method TakeAll(entries: seq<MappedEntry>)
      modifies this
      ensures State() == AllTaken(old(State()), Entries(entries))
    {
      for i := 0 to |entries|
        invariant State() == AllTaken(old(State()), Entries(entries)[..i])
      {
        var e := entries[i].entry;
        assert Entries(entries)[..i + 1][..i] == Entries(entries)[..i];
        if e.deleted {
          deletedKeys := deletedKeys[e.key := e];
        } else {
          valueByKey := valueByKey[e.key := e];
        }
      }
      assert Entries(entries)[..|entries|] == Entries(entries);
    }

    method MergeWith(entries: seq<MappedEntry>)
      modifies this
      ensures State() == AllMerged(old(State()), Entries(entries))
    {
      for i := 0 to |entries|
        invariant State() == AllMerged(old(State()), Entries(entries)[..i])
      {
        var e := entries[i].entry;
        assert Entries(entries)[..i + 1][..i] == Entries(entries)[..i];
        if e.key in valueByKey {
          MaybeUpdate(valueByKey[e.key], e);
        } else if e.key in deletedKeys {
          var dead := deletedKeys[e.key];
          deletedKeys := deletedKeys - {e.key};
          MaybeUpdate(dead, e);
        } else {
          valueByKey := valueByKey[e.key := e];
        }
      }
      assert Entries(entries)[..|entries|] == Entries(entries);
    }

    method MaybeUpdate(existing: Record, e: Record)
      modifies this
      ensures State() == Update(old(State()), existing, e)
    {
      if e.timestamp > existing.timestamp {
        if e.deleted {
          valueByKey := valueByKey - {existing.key};
        } else {
          valueByKey := valueByKey[existing.key := e];
        }
      }
    }
  }

  function Entries(entries: seq<MappedEntry>): (r: seq<Record>)
    ensures |r| == |entries|
  {
    seq(|entries|, i requires 0 <= i < |entries| => entries[i].entry)
  }

  // ----- which entry of a key is kept -----

  /** Entries of a key carry timestamps that do not fall in write order. */
  ghost predicate Ordered(es: seq<Record>)
  {
    forall i, j :: 0 <= i < j < |es| && es[i].key == es[j].key ==> es[i].timestamp <= es[j].timestamp
  }

  ghost function Elements(es: seq<Record>): set<Record> { set e | e in es }

  lemma ElementsPush(es: seq<Record>)
    requires es != []
    ensures Elements(es) == Elements(es[..|es| - 1]) + {es[|es| - 1]}
  {
    assert es == es[..|es| - 1] + [es[|es| - 1]];
  }

  ghost function Seen(segments: seq<seq<Record>>): set<Record>
  {
    set s, e | s in segments && e in s :: e
  }

  /** An entry with the latest timestamp of its key among those seen. */
  ghost predicate IsLatest(e: Record, seen: set<Record>)
  {
    e in seen && forall d <- seen :: d.key == e.key ==> d.timestamp <= e.timestamp
  }

  /** The entry is of this key and this time. */
  predicate At(e: Record, k: Key, t: nat) { e.key == k && e.timestamp == t }

  /** The first and the last entry of a segment for a key at a time. */
  ghost function FirstAt(es: seq<Record>, k: Key, t: nat): Option<Record>
  {
    if es == [] then None else
      var first := FirstAt(es[..|es| - 1], k, t);
      if first.Some? then first else if At(es[|es| - 1], k, t) then Some(es[|es| - 1]) else None
  }

  ghost function LastAt(es: seq<Record>, k: Key, t: nat): Option<Record>
  {
    if es == [] then None
    else if At(es[|es| - 1], k, t) then Some(es[|es| - 1])
    else LastAt(es[..|es| - 1], k, t)
  }

  /** The entry of a key at a time that a visit keeps: the last one of the first segment, or else the
      first one that is come across. */
  ghost function WinnerOf(segments: seq<seq<Record>>, k: Key, t: nat): Option<Record>
  {
    if segments == [] then None
    else if |segments| == 1 then LastAt(segments[0], k, t)
    else
      var winner := WinnerOf(segments[..|segments| - 1], k, t);
      if winner.Some? then winner else FirstAt(segments[|segments| - 1], k, t)
  }

  lemma {:induction false} AtMeans(es: seq<Record>, k: Key, t: nat)
    ensures FirstAt(es, k, t).Some? <==> exists e :: e in es && At(e, k, t)
    ensures LastAt(es, k, t).Some? <==> exists e :: e in es && At(e, k, t)
    ensures FirstAt(es, k, t).Some? ==> FirstAt(es, k, t).value in es && At(FirstAt(es, k, t).value, k, t)
    ensures LastAt(es, k, t).Some? ==> LastAt(es, k, t).value in es && At(LastAt(es, k, t).value, k, t)
  {
    if es != [] {
      var n := |es| - 1;
      AtMeans(es[..n], k, t);
      assert es == es[..n] + [es[n]];
    }
  }

  lemma {:induction false} WinnerMeans(segments: seq<seq<Record>>, k: Key, t: nat)
    ensures WinnerOf(segments, k, t).Some? <==> exists e :: e in Seen(segments) && At(e, k, t)
    ensures WinnerOf(segments, k, t).Some? ==>
      WinnerOf(segments, k, t).value in Seen(segments) && At(WinnerOf(segments, k, t).value, k, t)
  {
    if segments != [] {
      var n := |segments| - 1;
      var head, last := segments[..n], segments[n];
      SeenPush(segments);
      AtMeans(last, k, t);
      if n > 0 {
        WinnerMeans(head, k, t);
      }
    }
  }

  lemma SeenPush(segments: seq<seq<Record>>)
    requires segments != []
    ensures Seen(segments) == Seen(segments[..|segments| - 1]) + Elements(segments[|segments| - 1])
    ensures |segments| == 1 ==> Seen(segments) == Elements(segments[0])
  {
    assert segments == segments[..|segments| - 1] + [segments[|segments| - 1]];
  }

  /** Entries of this key are no later than this time, and those of this time are no tombstones. */
  ghost predicate Topped(es: set<Record>, k: Key, t: nat)
  {
    forall e <- es :: e.key == k ==> e.timestamp <= t && (e.timestamp == t ==> !e.deleted)
  }

  /** A state in the course of a merge that such entries lead to, and what it holds for the key at the time. */
  ghost predicate Holding(m: Merged, k: Key, t: nat, winner: Option<Record>)
  {
    && (forall j <- m.values :: m.values[j].key == j)
    && (forall j <- m.deleted :: m.deleted[j].key == j)
    && (k in m.deleted ==> m.deleted[k].timestamp < t)
    && (if winner.Some? then k in m.values && m.values[k] == winner.value && winner.value.timestamp == t
        else k in m.values ==> m.values[k].timestamp < t)
  }

  lemma MergeOneHolds(m: Merged, e: Record, k: Key, t: nat, winner: Option<Record>)
    requires Holding(m, k, t, winner) && Topped({e}, k, t)
    ensures Holding(MergeOne(m, e), k, t, if winner.None? && At(e, k, t) then Some(e) else winner)
  {
    assert e in {e};
  }

  lemma TakeOneHolds(m: Merged, e: Record, k: Key, t: nat, winner: Option<Record>)
    requires Holding(m, k, t, winner) && Topped({e}, k, t)
    requires winner.Some? && e.key == k ==> e.timestamp == t
    ensures Holding(TakeOne(m, e), k, t, if At(e, k, t) then Some(e) else winner)
  {
    assert e in {e};
  }

  lemma {:induction false} MergeHolds(m: Merged, es: seq<Record>, k: Key, t: nat, winner: Option<Record>)
    requires Holding(m, k, t, winner) && Topped(Elements(es), k, t)
    ensures Holding(AllMerged(m, es), k, t, if winner.Some? then winner else FirstAt(es, k, t))
  {
    if es != [] {
      var n := |es| - 1;
      ElementsPush(es);
      MergeHolds(m, es[..n], k, t, winner);
      var so := if winner.Some? then winner else FirstAt(es[..n], k, t);
      hide Holding;
      MergeOneHolds(AllMerged(m, es[..n]), es[n], k, t, so);
    }
  }

  lemma {:induction false} TakeHolds(es: seq<Record>, k: Key, t: nat)
    requires Ordered(es) && Topped(Elements(es), k, t)
    ensures Holding(AllTaken(Merged(map[], map[]), es), k, t, LastAt(es, k, t))
  {
    if es != [] {
      var n := |es| - 1;
      ElementsPush(es);
      TakeHolds(es[..n], k, t);
      AtMeans(es[..n], k, t);
      if LastAt(es[..n], k, t).Some? && es[n].key == k {
        var i :| 0 <= i < n && es[..n][i] == LastAt(es[..n], k, t).value;
        assert es[i].timestamp <= es[n].timestamp;
      }
      hide Holding;
      TakeOneHolds(AllTaken(Merged(map[], map[]), es[..n]), es[n], k, t, LastAt(es[..n], k, t));
    }
  }

  /** Whatever tombstones came before: when no entry of a key at its latest time is a tombstone, a
      visit leaves exactly the winner under the key. */
  lemma {:induction false} MergeAllHolds(segments: seq<seq<Record>>, k: Key, t: nat)
    requires (forall s <- segments :: Ordered(s)) && Topped(Seen(segments), k, t)
    ensures Holding(MergeAll(segments), k, t, WinnerOf(segments, k, t))
  {
    if segments != [] {
      var n := |segments| - 1;
      var head, last := segments[..n], segments[n];
      SeenPush(segments);
      if n == 0 {
        TakeHolds(last, k, t);
      } else {
        MergeAllHolds(head, k, t);
        hide Holding;
        MergeHolds(MergeAll(head), last, k, t, WinnerOf(head, k, t));
      }
    }
  }

  // ----- what the merge keeps -----

  /** The latest entry of no key is a tombstone. */
  ghost predicate NoneDeleted(seen: set<Record>)
  {
    forall e <- seen :: IsLatest(e, seen) ==> !e.deleted
  }

  lemma LatestTops(seen: set<Record>, e: Record)
    requires NoneDeleted(seen) && IsLatest(e, seen)
    ensures Topped(seen, e.key, e.timestamp)
  {
    forall d | d in seen && d.key == e.key && d.timestamp == e.timestamp ensures !d.deleted {
      assert IsLatest(d, seen);
    }
  }

  /** Every key that is seen has a latest entry. */
  lemma {:induction false} SomeLatest(seen: set<Record>, k: Key)
    requires exists e :: e in seen && e.key == k
    ensures exists e :: IsLatest(e, seen) && e.key == k
    decreases seen
  {
    var e :| e in seen && e.key == k;
    var rest := seen - {e};
    if exists d :: d in rest && d.key == k {
      SomeLatest(rest, k);
      var d :| IsLatest(d, rest) && d.key == k;
      assert IsLatest(d, seen) || IsLatest(e, seen);
    } else {
      assert IsLatest(e, seen);
    }
  }

  /** Whatever the entries, the merged state only holds entries that were seen, under their keys. */
  ghost predicate Sound(m: Merged, seen: set<Record>)
  {
    && (forall k <- m.values :: m.values[k] in seen && m.values[k].key == k)
    && (forall k <- m.deleted :: m.deleted[k] in seen && m.deleted[k].key == k)
  }

  lemma {:induction false} MergeWithIsSound(m: Merged, seen: set<Record>, es: seq<Record>)
    requires Sound(m, seen)
    ensures Sound(AllMerged(m, es), seen + Elements(es))
    ensures Sound(AllTaken(m, es), seen + Elements(es))
  {
    if es == [] {
      assert seen + Elements(es) == seen;
    } else {
      var n := |es| - 1;
      hide Sound, MergeOne, TakeOne;
      MergeWithIsSound(m, seen, es[..n]);
      ElementsPush(es);
      assert seen + Elements(es[..n]) + {es[n]} == seen + Elements(es);
      OneMoreIsSound(AllMerged(m, es[..n]), seen + Elements(es[..n]), es[n]);
      OneMoreIsSound(AllTaken(m, es[..n]), seen + Elements(es[..n]), es[n]);
    }
  }

  lemma OneMoreIsSound(m: Merged, seen: set<Record>, e: Record)
    requires Sound(m, seen)
    ensures Sound(MergeOne(m, e), seen + {e}) && Sound(TakeOne(m, e), seen + {e})
  {}

  lemma {:induction false} MergeAllIsSound(segments: seq<seq<Record>>)
    ensures Sound(MergeAll(segments), Seen(segments))
  {
    if segments != [] {
      var n := |segments| - 1;
      var head, last := segments[..n], segments[n];
      if n == 0 {
        MergeWithIsSound(Merged(map[], map[]), {}, last);
      } else {
        MergeAllIsSound(head);
        MergeWithIsSound(MergeAll(head), Seen(head), last);
      }
      SeenPush(segments);
    }
  }

  /** A key whose latest entry is a put keeps an entry of that time, whatever older tombstones there
      are and in whatever order the segments are visited. */
  lemma LatestPutStays(segments: seq<seq<Record>>, e: Record)
    requires forall s <- segments :: Ordered(s)
    requires IsLatest(e, Seen(segments)) && Topped(Seen(segments), e.key, e.timestamp)
    ensures e.key in MergeAll(segments).values && IsLatest(MergeAll(segments).values[e.key], Seen(segments))
    ensures Some(MergeAll(segments).values[e.key]) == WinnerOf(segments, e.key, e.timestamp)
  {
    MergeAllHolds(segments, e.key, e.timestamp);
    WinnerMeans(segments, e.key, e.timestamp);
  }

  /** If the latest entry of no key is a tombstone, merging keeps an entry with the latest timestamp for
      exactly the keys seen. */
  lemma MergeAllIsLatest(segments: seq<seq<Record>>)
    requires (forall s <- segments :: Ordered(s)) && NoneDeleted(Seen(segments))
    ensures forall e <- Seen(segments) :: e.key in MergeAll(segments).values
    ensures forall k <- MergeAll(segments).values ::
      MergeAll(segments).values[k].key == k && IsLatest(MergeAll(segments).values[k], Seen(segments))
  {
    var m, seen := MergeAll(segments), Seen(segments);
    MergeAllIsSound(segments);
    forall k | exists e :: e in seen && e.key == k ensures k in m.values && IsLatest(m.values[k], seen) {
      SomeLatest(seen, k);
      var e :| IsLatest(e, seen) && e.key == k;
      LatestTops(seen, e);
      LatestPutStays(segments, e);
    }
  }

  /** Entries of one key that differ have different timestamps. */
  ghost predicate Distinguished(seen: set<Record>)
  {
    forall a, b :: a in seen && b in seen && a.key == b.key && a.timestamp == b.timestamp ==> a == b
  }

  /** The order of the visit does not matter when timestamps tell the entries of a key apart. */
  lemma VisitOrderIsIrrelevant(a: seq<seq<Record>>, b: seq<seq<Record>>)
    requires (forall s <- a :: Ordered(s)) && NoneDeleted(Seen(a))
    requires (forall s :: s in a <==> s in b) && Distinguished(Seen(a))
    ensures MergeAll(a).values == MergeAll(b).values
  {
    assert Seen(a) == Seen(b);
    MergeAllIsLatest(a);
    MergeAllIsLatest(b);
    MergeAllIsSound(a);
    MergeAllIsSound(b);
    hide MergeAll;
    assert MergeAll(a).values.Keys == MergeAll(b).values.Keys;
  }

  // ----- when a merge changes nothing -----

  /** What the merged entries say about their keys. */
  ghost function ValuesOf(m: Merged): map<Key, Value> { map k | k in m.values :: m.values[k].value }

  /** Every latest entry carries the current value of its key. */
  ghost predicate Current(contents: map<Key, Value>, seen: set<Record>)
  {
    forall e <- seen :: IsLatest(e, seen) ==> e.key in contents && contents[e.key] == e.value
  }

  /** The entry can be the one that is kept for its key: as the last of its time in the segment that is
      visited first, or as the first of its time in another, after one that has none. */
  ghost predicate CanWin(e: Record, segments: seq<seq<Record>>)
  {
    && IsLatest(e, Seen(segments))
    && exists s :: s in segments && WinsFrom(e, s, segments)
  }

  ghost predicate WinsFrom(e: Record, s: seq<Record>, segments: seq<seq<Record>>)
  {
    || LastAt(s, e.key, e.timestamp) == Some(e)
    || (FirstAt(s, e.key, e.timestamp) == Some(e) && exists r :: r in segments && LastAt(r, e.key, e.timestamp).None?)
  }

  lemma {:induction false} WinnerWins(segments: seq<seq<Record>>, k: Key, t: nat)
    requires WinnerOf(segments, k, t).Some?
    ensures var e := WinnerOf(segments, k, t).value; At(e, k, t) && exists s :: s in segments && WinsFrom(e, s, segments)
  {
    WinnerMeans(segments, k, t);
    var e, n := WinnerOf(segments, k, t).value, |segments| - 1;
    var head, last := segments[..n], segments[n];
    if n == 0 {
      assert WinsFrom(e, last, segments);
    } else if WinnerOf(head, k, t).Some? {
      WinnerWins(head, k, t);
      var s :| s in head && WinsFrom(e, s, head);
      assert WinsFrom(e, s, segments);
    } else {
      FirstHasNone(head, k, t);
      assert segments[0] == head[0] && segments[0] in segments;
      assert WinsFrom(e, last, segments);
    }
  }

  lemma {:induction false} FirstHasNone(segments: seq<seq<Record>>, k: Key, t: nat)
    requires segments != [] && WinnerOf(segments, k, t).None?
    ensures LastAt(segments[0], k, t).None?
  {
    if |segments| > 1 {
      FirstHasNone(segments[..|segments| - 1], k, t);
    }
  }

  lemma {:induction false} FirstWins(segments: seq<seq<Record>>, k: Key, t: nat)
    requires segments != [] && LastAt(segments[0], k, t).Some?
    ensures WinnerOf(segments, k, t) == LastAt(segments[0], k, t)
  {
    if |segments| > 1 {
      FirstWins(segments[..|segments| - 1], k, t);
    }
  }

  lemma {:induction false} SecondWins(segments: seq<seq<Record>>, k: Key, t: nat)
    requires |segments| > 1 && LastAt(segments[0], k, t).None? && FirstAt(segments[1], k, t).Some?
    ensures WinnerOf(segments, k, t) == FirstAt(segments[1], k, t)
  {
    var n := |segments| - 1;
    if n == 1 {
      assert segments[..1][0] == segments[0];
    } else {
      SecondWins(segments[..n], k, t);
    }
  }

  /** Whatever can win does so in some visit. */
  lemma WinningVisit(segments: seq<seq<Record>>, e: Record) returns (visit: seq<seq<Record>>)
    requires CanWin(e, segments)
    ensures multiset(visit) == multiset(segments) && WinnerOf(visit, e.key, e.timestamp) == Some(e)
  {
    var s :| s in segments && WinsFrom(e, s, segments);
    if LastAt(s, e.key, e.timestamp) == Some(e) {
      visit := ToFront(segments, s);
      FirstWins(visit, e.key, e.timestamp);
    } else {
      var r :| r in segments && LastAt(r, e.key, e.timestamp).None?;
      AtMeans(r, e.key, e.timestamp);
      AtMeans(s, e.key, e.timestamp);
      var others := ToFront(segments, r);
      assert s in others[1..] by { InMultiset(segments, others, s); }
      var rest := ToFront(others[1..], s);
      visit := [r] + rest;
      assert others == [r] + others[1..];
      SecondWins(visit, e.key, e.timestamp);
    }
  }

  lemma InMultiset(a: seq<seq<Record>>, b: seq<seq<Record>>, s: seq<Record>)
    requires multiset(a) == multiset(b) && s in a
    ensures s in b
  {
    assert s in multiset(a);
  }

  lemma ToFront(segments: seq<seq<Record>>, s: seq<Record>) returns (visit: seq<seq<Record>>)
    requires s in segments
    ensures visit != [] && visit[0] == s && multiset(visit) == multiset(segments)
  {
    var i :| 0 <= i < |segments| && segments[i] == s;
    RemoveAtKeepsOthers(segments, i);
    visit := [s] + RemoveAt(segments, i);
    assert s in multiset(segments);
  }

  lemma SeenOfPermutation(a: seq<seq<Record>>, b: seq<seq<Record>>)
    requires multiset(a) == multiset(b)
    ensures Seen(a) == Seen(b) && forall s :: s in a <==> s in b
  {
    forall s ensures s in a <==> s in b {
      assert s in multiset(a) <==> s in multiset(b);
    }
  }

  ghost predicate WinnersAreCurrent(contents: map<Key, Value>, segments: seq<seq<Record>>)
  {
    forall e :: CanWin(e, segments) ==> e.key in contents && contents[e.key] == e.value
  }

  /** Writing back what a visit keeps leaves a plain map as it was. */
  ghost predicate Keeps(contents: map<Key, Value>, visit: seq<seq<Record>>)
  {
    contents + ValuesOf(MergeAll(visit)) == contents
  }

  lemma CurrentIsKept(contents: map<Key, Value>, segments: seq<seq<Record>>)
    requires (forall s <- segments :: Ordered(s)) && NoneDeleted(Seen(segments)) && WinnersAreCurrent(contents, segments)
    ensures Keeps(contents, segments)
  {
    var m, seen := MergeAll(segments), Seen(segments);
    MergeAllIsLatest(segments);
    forall k | k in m.values ensures k in contents && contents[k] == m.values[k].value {
      var e := m.values[k];
      LatestTops(seen, e);
      LatestPutStays(segments, e);
      WinnerWins(segments, e.key, e.timestamp);
      assert CanWin(e, segments);
    }
  }

  lemma KeptIsCurrent(contents: map<Key, Value>, segments: seq<seq<Record>>, e: Record)
    requires (forall s <- segments :: Ordered(s)) && NoneDeleted(Seen(segments)) && CanWin(e, segments)
    requires forall visit :: multiset(visit) == multiset(segments) ==> Keeps(contents, visit)
    ensures e.key in contents && contents[e.key] == e.value
  {
    var visit := WinningVisit(segments, e);
    SeenOfPermutation(segments, visit);
    LatestTops(Seen(visit), e);
    LatestPutStays(visit, e);
    assert Keeps(contents, visit);
    assert (contents + ValuesOf(MergeAll(visit)))[e.key] == e.value;
  }

  lemma WinnersOfPermutation(contents: map<Key, Value>, segments: seq<seq<Record>>, visit: seq<seq<Record>>)
    requires multiset(visit) == multiset(segments) && WinnersAreCurrent(contents, segments)
    ensures WinnersAreCurrent(contents, visit)
  {
    SeenOfPermutation(segments, visit);
    forall e | CanWin(e, visit) ensures CanWin(e, segments) {
      var s :| s in visit && WinsFrom(e, s, visit);
      assert s in segments && WinsFrom(e, s, segments);
    }
  }

  /** Ties included, and whatever older tombstones there are: every visit leaves a plain map as it was
      if and only if every entry that can win carries the current value of its key. */
  lemma KeptInEveryOrder(contents: map<Key, Value>, segments: seq<seq<Record>>)
    requires (forall s <- segments :: Ordered(s)) && NoneDeleted(Seen(segments))
    ensures (forall visit :: multiset(visit) == multiset(segments) ==> Keeps(contents, visit))
       <==> WinnersAreCurrent(contents, segments)
  {
    hide CanWin, Keeps, MergeAll;
    if forall visit :: multiset(visit) == multiset(segments) ==> Keeps(contents, visit) {
      forall e | CanWin(e, segments) ensures e.key in contents && contents[e.key] == e.value {
        KeptIsCurrent(contents, segments, e);
      }
    }
    if WinnersAreCurrent(contents, segments) {
      forall visit | multiset(visit) == multiset(segments) ensures Keeps(contents, visit) {
        SeenOfPermutation(segments, visit);
        WinnersOfPermutation(contents, segments, visit);
        CurrentIsKept(contents, visit);
      }
    }
  }

  /** With timestamps that tell the entries of a key apart, any single visit leaves a plain map as it
      was if and only if latest entries carry the current values. */
  lemma KeptExactlyWhenCurrent(contents: map<Key, Value>, segments: seq<seq<Record>>)
    requires (forall s <- segments :: Ordered(s)) && NoneDeleted(Seen(segments))
    requires Distinguished(Seen(segments))
    ensures Keeps(contents, segments) <==> Current(contents, Seen(segments))
  {
    var m, seen := MergeAll(segments), Seen(segments);
    if Current(contents, seen) {
      CurrentIsKept(contents, segments);
    }
    MergeAllIsLatest(segments);
    if Keeps(contents, segments) {
      forall e | e in seen && IsLatest(e, seen) ensures e.key in contents && contents[e.key] == e.value {
        assert m.values[e.key] == e;
        assert (contents + ValuesOf(m))[e.key] == e.value;
      }
    }
  }

  // ----- what it does not keep -----

  /** Two writes of a key in the same second: the merge keeps the older one if its segment is visited first. */
  lemma TiesKeepTheOlder(k: Key, old': Value, new': Value, t: nat)
    ensures var segments := [[Record(k, old', false, t)], [Record(k, new', false, t)]];
      k in MergeAll(segments).values && MergeAll(segments).values[k].value == old'
  {
    var a, b := [Record(k, old', false, t)], [Record(k, new', false, t)];
    var segments := [a, b];
    assert segments[..1] == [a] && a[..0] == [] && b[..0] == [];
    assert MergeAll([a]) == AllTaken(Merged(map[], map[]), a);
    assert AllTaken(Merged(map[], map[]), []) == Merged(map[], map[]);
    assert AllMerged(MergeAll([a]), []) == MergeAll([a]);
  }

  /** A write followed by a delete in the segment that is visited first comes back to life. */
  lemma DeletedComesBack(k: Key, v: Value, t: nat, other: seq<Record>)
    requires forall e <- other :: e.key != k
    ensures var segments := [[Record(k, v, false, t), Record(k, [], true, t + 1)], other];
      k in MergeAll(segments).values && MergeAll(segments).values[k].value == v
  {
    var put, del := Record(k, v, false, t), Record(k, [], true, t + 1);
    var first := [put, del];
    var segments := [first, other];
    assert segments[..1] == [first] && first[..1] == [put] && [put][..0] == [];
    var none := Merged(map[], map[]);
    assert AllTaken(none, []) == none;
    assert AllTaken(none, [put]).values == map[k := put];
    assert MergeAll([first]).values == map[k := put];
    OtherKeysStay(MergeAll([first]), other, k);
  }

  /** A tombstone of a key that no segment before it holds becomes a value: the key comes back, empty. */
  lemma TombstoneBecomesAValue(first: seq<Record>, k: Key, t: nat)
    requires forall e <- first :: e.key != k
    ensures var m := MergeAll([first, [Record(k, [], true, t)]]); k in m.values && ValuesOf(m)[k] == []
  {
    var dead := Record(k, [], true, t);
    var segments := [first, [dead]];
    assert segments[..1] == [first] && [dead][..0] == [];
    MergeAllIsSound([first]);
    assert MergeAll(segments) == MergeOne(AllMerged(MergeAll([first]), []), dead);
  }

  lemma {:induction false} OtherKeysStay(m: Merged, es: seq<Record>, k: Key)
    requires (forall e <- es :: e.key != k) && (forall j <- m.values :: m.values[j].key == j)
    requires forall j <- m.deleted :: m.deleted[j].key == j
    requires k in m.values
    ensures k in AllMerged(m, es).values && AllMerged(m, es).values[k] == m.values[k]
    ensures forall j <- AllMerged(m, es).values :: AllMerged(m, es).values[j].key == j
    ensures forall j <- AllMerged(m, es).deleted :: AllMerged(m, es).deleted[j].key == j
  {
    if es != [] {
      OtherKeysStay(m, es[..|es| - 1], k);
    }
  }
}
