/** What the key-value store of crates/kv/src/kvstore.rs has on disk, as a state machine: the steps that
    the store takes, what they do to the map it stands for, and how the directory keeps track of the
    latest entry of every key. */
module KvDisk {
  import opened Basics
  import opened Bytes
  import opened KvEntry
  import opened KvMerge
  import opened KvLog

  /** How merges run: after how many writes, and over how many inactive segments. */
  datatype MergeConfig = MergeConfig(runMergeEvery: nat, readAll: bool, totalSegments: nat)
  {
    /** How many of so many inactive segments a merge reads. */
    function ToRead(sealed: nat): (n: nat)
      ensures n <= sealed && (readAll ==> n == sealed)
      ensures !readAll ==> n <= totalSegments && (n < totalSegments ==> n == sealed)
    {
      if readAll || sealed < totalSegments then sealed else totalSegments
    }
  }

  datatype Op = PutOp(key: Key, value: Value) | DeleteOp(key: Key) | GetOp(key: Key)

  /** What a store holds: the log of every segment, the directory, the id of the active segment and the
      number of writes since the last merge. */
  datatype Disk = Disk(logs: Logs, directory: map<Key, Pointer>, active: nat, counter: nat)

  ghost predicate Fitting(logs: Logs) { forall f <- logs :: AllFit(logs[f]) }

  ghost predicate DiskOk(d: Disk) { d.active in d.logs && Fitting(d.logs) && Pointed(d.logs, d.directory) }

  /** The plain map that a store stands for. */
  ghost function Contents(d: Disk): map<Key, Value> { ContentsOf(FilesOf(d.logs), d.directory) }

  lemma FittingIsCoherent(logs: Logs)
    requires Fitting(logs)
    ensures Coherent(FilesOf(logs), logs)
  {}

  // ----- steps -----

  /** An entry goes to the end of the active segment, or to a new one if that is full. */
  ghost predicate AppendsTo(logs: Logs, active: nat, r: Record, maxSize: nat, logs': Logs, active': nat, p: Pointer)
  {
    && active in logs && active' in logs'
    && (if |EncodeAll(logs[active])| >= maxSize
        then active' !in logs && logs' == logs[active' := [r]]
        else active' == active && logs' == logs[active := logs[active] + [r]])
    && p.fileId == active' && Names(logs'[active'], p, |logs'[active']| - 1)
  }

  ghost predicate Appends(d: Disk, r: Record, maxSize: nat, d': Disk, p: Pointer)
  {
    AppendsTo(d.logs, d.active, r, maxSize, d'.logs, d'.active, p) && NoneRevived(d.logs, d'.logs, d.directory)
  }

  /** Some inactive segments, as many as the merge reads, are replaced by new ones that hold what the
      merge keeps of them; fewer than two are left alone. */
  ghost predicate Merges(d: Disk, ids: seq<nat>, now: nat, config: MergeConfig, d': Disk)
  {
    && d.active in d.logs && Ids(ids) <= d.logs.Keys - {d.active}
    && |Ids(ids)| == |ids| == config.ToRead(|d.logs| - 1)
    && if |ids| < 2 then d' == d else exists logs, responses :: Replaces(d, ids, now, logs, responses, d')
  }

  ghost predicate Replaces(d: Disk, ids: seq<nat>, now: nat, logs: Logs, responses: seq<(Key, Pointer)>, d': Disk)
    requires Ids(ids) <= d.logs.Keys
  {
    var changes := MergeAll(Visited(d.logs, ids)).values;
    && (forall f <- d.logs :: f in logs && logs[f] == d.logs[f]) && NoneRevived(d.logs, logs, d.directory)
    && WrittenBack(responses, changes.Keys, changes, now, d.logs, logs)
    && OnlyWritten(responses, changes, now, d.logs, logs)
    && d' == Disk(logs - Ids(ids), d.directory + ResponseMap(responses), d.active, d.counter)
  }

  ghost predicate PutStep(d: Disk, k: Key, v: Value, now: nat, maxSize: nat, config: MergeConfig,
                          mid: Disk, ids: seq<nat>, p: Pointer, d': Disk)
  {
    && (if d.counter >= config.runMergeEvery then Merges(d, ids, now, config, mid) else mid == d)
    && Appends(mid, Record(k, v, false, Stamp(now)), maxSize, d', p)
    && d'.directory == mid.directory[k := p]
    && d'.counter == (if d.counter >= config.runMergeEvery then 0 else d.counter) + 1
  }

  ghost predicate DeleteStep(d: Disk, k: Key, now: nat, maxSize: nat, p: Pointer, d': Disk)
  {
    && Appends(d, Record(k, [], true, Stamp(now)), maxSize, d', p)
    && d'.directory == d.directory - {k} && d'.counter == d.counter
  }

  ghost predicate StepTo(d: Disk, op: Op, now: nat, maxSize: nat, config: MergeConfig, d': Disk)
  {
    match op
    case PutOp(k, v) => exists mid, ids, p :: PutStep(d, k, v, now, maxSize, config, mid, ids, p, d')
    case DeleteOp(k) => exists p :: DeleteStep(d, k, now, maxSize, p, d')
    case GetOp(_) => d' == d
  }

  ghost predicate OpFits(op: Op)
  {
    match op
    case PutOp(k, v) => Fits(Record(k, v, false, 0))
    case DeleteOp(k) => Fits(Record(k, [], true, 0))
    case GetOp(_) => true
  }

  // ----- what a step does to the plain map -----

  /** All entries of all files. */
  ghost function All(logs: Logs): set<Record> { SeenIn(logs, logs.Keys) }

  /** The logs after an append: one of them has one more entry, or there is a new one with it. */
  ghost predicate OneMore(logs: Logs, logs': Logs, f: nat, r: Record)
  {
    logs' == logs[f := (if f in logs then logs[f] else []) + [r]]
  }

  lemma AppendIsOneMore(d: Disk, r: Record, maxSize: nat, d': Disk, p: Pointer)
    requires Appends(d, r, maxSize, d', p)
    ensures OneMore(d.logs, d'.logs, d'.active, r)
    ensures Extends(d.logs, d'.logs) && NoneRevived(d.logs, d'.logs, d.directory) && Stores(d'.logs, p, r)
    ensures Fitting(d.logs) && Fits(r) ==> Fitting(d'.logs)
  {
    hide EncodeAll, Encode, Names, Fits;
    assert [] + [r] == [r];
    var log := d'.logs[d'.active];
    assert log[|log| - 1] == r;
    assert NamesRecord(log, p, r, |log| - 1);
  }

  lemma AllOfOneMore(logs: Logs, logs': Logs, f: nat, r: Record)
    requires OneMore(logs, logs', f, r)
    ensures All(logs') == All(logs) + {r}
  {
    forall e ensures e in All(logs') <==> e in All(logs) + {r} {
      if e in All(logs) {
        var g :| g in logs && e in logs[g];
        assert e in logs'[g];
      }
      if e == r {
        assert r in logs'[f];
      }
      if e in All(logs') {
        var g :| g in logs' && e in logs'[g];
        assert e == r || (g in logs && e in logs[g]);
      }
    }
  }

  lemma AppendPuts(d: Disk, k: Key, v: Value, t: nat, maxSize: nat, d': Disk, p: Pointer)
    requires DiskOk(d) && Appends(d, Record(k, v, false, t), maxSize, d', p) && Fits(Record(k, v, false, t))
    requires d'.directory == d.directory[k := p]
    ensures DiskOk(d') && Contents(d') == Contents(d)[k := v]
  {
    hide *;
    AppendIsOneMore(d, Record(k, v, false, t), maxSize, d', p);
    DiskParts(d);
    FittingIsCoherent(d.logs);
    FittingIsCoherent(d'.logs);
    StoredHolds(d'.logs, p, Record(k, v, false, t));
    PutContents(FilesOf(d.logs), d.logs, FilesOf(d'.logs), d'.logs, d.directory, k, v, p);
    ActiveIsThere(d, Record(k, v, false, t), maxSize, d', p);
    DiskIf(d');
    ContentsMean(d);
    ContentsMean(d');
  }

  lemma DiskParts(d: Disk)
    requires DiskOk(d)
    ensures d.active in d.logs && Fitting(d.logs) && Pointed(d.logs, d.directory)
  {}

  lemma DiskIf(d: Disk)
    requires d.active in d.logs && Fitting(d.logs) && Pointed(d.logs, d.directory)
    ensures DiskOk(d)
  {}

  lemma ContentsMean(d: Disk)
    ensures Contents(d) == ContentsOf(FilesOf(d.logs), d.directory)
  {}

  lemma ActiveIsThere(d: Disk, r: Record, maxSize: nat, d': Disk, p: Pointer)
    requires Appends(d, r, maxSize, d', p)
    ensures d'.active in d'.logs
  {}

  lemma AppendDeletes(d: Disk, k: Key, t: nat, maxSize: nat, d': Disk, p: Pointer)
    requires DiskOk(d) && Appends(d, Record(k, [], true, t), maxSize, d', p) && Fits(Record(k, [], true, t))
    requires d'.directory == d.directory - {k}
    ensures DiskOk(d') && Contents(d') == Contents(d) - {k}
  {
    hide *;
    AppendIsOneMore(d, Record(k, [], true, t), maxSize, d', p);
    DiskParts(d);
    FittingIsCoherent(d.logs);
    FittingIsCoherent(d'.logs);
    DeleteContents(FilesOf(d.logs), d.logs, FilesOf(d'.logs), d'.logs, d.directory, k);
    ActiveIsThere(d, Record(k, [], true, t), maxSize, d', p);
    DiskIf(d');
    ContentsMean(d);
    ContentsMean(d');
  }

  /** What a merge does to the map, whatever is on disk: the merged keys get the merged values, and a key
      that is left pointing into a removed file is lost. */
  lemma MergeOverlays(d: Disk, ids: seq<nat>, now: nat, logs: Logs, responses: seq<(Key, Pointer)>, d': Disk)
    requires DiskOk(d) && Ids(ids) <= d.logs.Keys - {d.active} && Replaces(d, ids, now, logs, responses, d')
    ensures DiskOk(d')
    ensures Contents(d') == Outside(Contents(d), d.directory, Ids(ids)) + ValuesOf(MergeAll(Visited(d.logs, ids)))
  {
    var changes := MergeAll(Visited(d.logs, ids)).values;
    FittingIsCoherent(d.logs);
    MergedFits(FilesOf(d.logs), d.logs, ids);
    NewFilesFit(d, ids, now, logs, responses, d');
    FittingIsCoherent(d'.logs);
    assert Extends(d.logs, logs);
    hide Fitting, Pointed, Extends, NoneRevived, FilesOf, ContentsOf, Fits, WrittenBack, OnlyWritten, ResponseMap, MergeAll;
    MergedContents(FilesOf(d.logs), d.logs, d.directory, logs, FilesOf(d'.logs), responses, changes, now, Ids(ids));
  }

  lemma NewFilesFit(d: Disk, ids: seq<nat>, now: nat, logs: Logs, responses: seq<(Key, Pointer)>, d': Disk)
    requires Fitting(d.logs) && Ids(ids) <= d.logs.Keys && Replaces(d, ids, now, logs, responses, d')
    requires forall k <- MergeAll(Visited(d.logs, ids)).values :: Fits(MergeAll(Visited(d.logs, ids)).values[k])
    ensures Fitting(d'.logs)
  {
    hide MergeAll, Fits, Preserving, WrittenBack, ResponseMap;
    var changes := MergeAll(Visited(d.logs, ids)).values;
    forall f | f in d'.logs ensures AllFit(d'.logs[f]) {
      if f !in d.logs {
        forall i | 0 <= i < |logs[f]| ensures Fits(logs[f][i]) {
          var e := logs[f][i];
          assert e in logs[f];
          assert WrittenTo(responses, changes, now, f, e);
          PreservingFits(changes[e.key], now);
        }
      }
    }
  }

  // ----- tracking: the directory points to the latest entry of every key -----

  /** Timestamps tell the entries of a key apart and rise in write order; every key in the directory
      points to its latest entry over all files, a put, and the latest entry of every other key is a
      tombstone. No entry of a key is later than its stamp. */
  ghost predicate Tracked(logs: Logs, directory: map<Key, Pointer>, stamps: map<Key, nat>)
  {
    && (forall f <- logs :: Ordered(logs[f]))
    && Distinguished(All(logs)) && Dated(All(logs), stamps)
    && (forall k <- directory :: PointsToLatest(logs, k, directory[k]))
    && OthersDeleted(All(logs), directory.Keys)
  }

  ghost predicate Dated(seen: set<Record>, stamps: map<Key, nat>)
  {
    forall e <- seen :: 0 < e.timestamp && e.key in stamps && e.timestamp <= stamps[e.key]
  }

  ghost predicate PointsToLatest(logs: Logs, k: Key, p: Pointer)
  {
    exists e :: Stores(logs, p, e) && e.key == k && !e.deleted && IsLatest(e, All(logs))
  }

  /** A time after every entry of the key. */
  ghost predicate Later(stamps: map<Key, nat>, k: Key, t: nat) { 0 < t && (k in stamps ==> stamps[k] < t) }

  lemma StoredIsSeen(logs: Logs, p: Pointer, e: Record)
    requires Stores(logs, p, e)
    ensures p.fileId in logs && e in logs[p.fileId] && e in All(logs)
  {
    var i :| NamesRecord(logs[p.fileId], p, e, i);
    assert logs[p.fileId][i] in logs[p.fileId];
  }

  /** The latest entry of every key that is not among these is a tombstone. */
  ghost predicate OthersDeleted(seen: set<Record>, keys: set<Key>)
  {
    forall e <- seen :: IsLatest(e, seen) && e.key !in keys ==> e.deleted
  }

  ghost function DirectoryWith(directory: map<Key, Pointer>, r: Record, p: Pointer): map<Key, Pointer>
  {
    if r.deleted then directory - {r.key} else directory[r.key := p]
  }

  ghost function KeysAfter(keys: set<Key>, r: Record): set<Key> { if r.deleted then keys - {r.key} else keys + {r.key} }

  /** An entry later than all of its key becomes the latest of its key, and nothing else changes. */
  lemma LatestAdd(seen: set<Record>, r: Record, keys: set<Key>, stamps: map<Key, nat>)
    requires Distinguished(seen) && Dated(seen, stamps) && Later(stamps, r.key, r.timestamp) && OthersDeleted(seen, keys)
    ensures Distinguished(seen + {r}) && Dated(seen + {r}, stamps[r.key := r.timestamp]) && IsLatest(r, seen + {r})
    ensures OthersDeleted(seen + {r}, KeysAfter(keys, r))
  {
    forall e | e in seen && e.key != r.key && IsLatest(e, seen + {r}) ensures IsLatest(e, seen) {}
  }

  /** Writing an entry later than all of its key keeps the directory on the latest entries. */
  lemma TrackedAppend(d: Disk, r: Record, maxSize: nat, d': Disk, p: Pointer, stamps: map<Key, nat>)
    requires Tracked(d.logs, d.directory, stamps) && Later(stamps, r.key, r.timestamp)
    requires Appends(d, r, maxSize, d', p)
    requires d'.directory == DirectoryWith(d.directory, r, p)
    ensures Tracked(d'.logs, d'.directory, stamps[r.key := r.timestamp])
  {
    hide *;
    AppendTracks(d, r, maxSize, d', p, stamps);
    DirectoryAfter(d.directory, d'.directory, r, p);
    forall k | k in d'.directory ensures PointsToLatest(d'.logs, k, d'.directory[k]) {
      if k == r.key {
        NewestIsLatest(d'.logs, r, p);
      } else {
        TrackedPoints(d.logs, d.directory, stamps, k);
        StillLatest(d, d', r, k, d.directory[k]);
      }
    }
    TrackedIf(d'.logs, d'.directory, stamps[r.key := r.timestamp]);
  }

  lemma TrackedPoints(logs: Logs, directory: map<Key, Pointer>, stamps: map<Key, nat>, k: Key)
    requires Tracked(logs, directory, stamps) && k in directory
    ensures PointsToLatest(logs, k, directory[k])
  {}

  lemma TrackedIf(logs: Logs, directory: map<Key, Pointer>, stamps: map<Key, nat>)
    requires forall f <- logs :: Ordered(logs[f])
    requires Distinguished(All(logs)) && Dated(All(logs), stamps) && OthersDeleted(All(logs), directory.Keys)
    requires forall k <- directory :: PointsToLatest(logs, k, directory[k])
    ensures Tracked(logs, directory, stamps)
  {}

  lemma DirectoryAfter(directory: map<Key, Pointer>, directory': map<Key, Pointer>, r: Record, p: Pointer)
    requires directory' == DirectoryWith(directory, r, p)
    ensures directory'.Keys == KeysAfter(directory.Keys, r)
    ensures forall k <- directory' :: if k == r.key then directory'[k] == p && !r.deleted else k in directory && directory'[k] == directory[k]
  {}

  lemma AppendTracks(d: Disk, r: Record, maxSize: nat, d': Disk, p: Pointer, stamps: map<Key, nat>)
    requires Tracked(d.logs, d.directory, stamps) && Later(stamps, r.key, r.timestamp)
    requires Appends(d, r, maxSize, d', p)
    ensures forall f <- d'.logs :: Ordered(d'.logs[f])
    ensures Distinguished(All(d'.logs)) && Dated(All(d'.logs), stamps[r.key := r.timestamp])
    ensures OthersDeleted(All(d'.logs), KeysAfter(d.directory.Keys, r))
    ensures Extends(d.logs, d'.logs) && All(d'.logs) == All(d.logs) + {r}
    ensures Stores(d'.logs, p, r) && IsLatest(r, All(d'.logs))
  {
    AppendIsOneMore(d, r, maxSize, d', p);
    hide Appends, Stores, Extends, IsLatest, Distinguished, Dated, All, Ordered, OthersDeleted, PointsToLatest, KeysAfter, OneMore;
    AllOfOneMore(d.logs, d'.logs, d'.active, r);
    OrderedAppend(d.logs, d'.logs, d'.active, r, stamps);
    LatestAdd(All(d.logs), r, d.directory.Keys, stamps);
  }

  lemma NewestIsLatest(logs: Logs, r: Record, p: Pointer)
    requires Stores(logs, p, r) && !r.deleted && IsLatest(r, All(logs))
    ensures PointsToLatest(logs, r.key, p)
  {}

  lemma StillLatest(d: Disk, d': Disk, r: Record, k: Key, p: Pointer)
    requires PointsToLatest(d.logs, k, p) && k != r.key && Extends(d.logs, d'.logs) && All(d'.logs) == All(d.logs) + {r}
    ensures PointsToLatest(d'.logs, k, p)
  {
    hide Stores, Extends;
    var e :| Stores(d.logs, p, e) && e.key == k && !e.deleted && IsLatest(e, All(d.logs));
    ExtensionKeepsStored(d.logs, d'.logs, p, e);
    assert IsLatest(e, All(d'.logs));
  }

  lemma OrderedAppend(logs: Logs, logs': Logs, f: nat, r: Record, stamps: map<Key, nat>)
    requires OneMore(logs, logs', f, r) && Dated(All(logs), stamps) && Later(stamps, r.key, r.timestamp)
    requires forall g <- logs :: Ordered(logs[g])
    ensures forall g <- logs' :: Ordered(logs'[g])
  {
    forall g | g in logs' ensures Ordered(logs'[g]) {
      if g == f && f in logs {
        forall i | 0 <= i < |logs[f]| ensures logs[f][i].key == r.key ==> logs[f][i].timestamp <= r.timestamp {
          assert logs[f][i] in logs[f];
          assert logs[f][i] in All(logs);
        }
      }
    }
  }

  // ----- merging a tracked store -----

  /** Every key seen in these files is in the directory and points into them. */
  ghost predicate SelfContained(d: Disk, ids: set<nat>)
    requires ids <= d.logs.Keys
  {
    forall e <- SeenIn(d.logs, ids) :: e.key in d.directory && d.directory[e.key].fileId in ids
  }

  /** No key seen in these files has a newer entry outside them. */
  ghost predicate NoneNewer(d: Disk, ids: set<nat>)
    requires ids <= d.logs.Keys
  {
    forall e <- SeenIn(d.logs, ids) :: IsLatest(e, SeenIn(d.logs, ids)) ==> IsLatest(e, All(d.logs))
  }

  /** The latest entry of every key in these files is a put, and the latest of all. */
  ghost predicate Settled(d: Disk, ids: set<nat>)
    requires ids <= d.logs.Keys
  {
    NoneDeleted(SeenIn(d.logs, ids)) && NoneNewer(d, ids)
  }

  lemma SeenIsAmongAll(logs: Logs, ids: set<nat>)
    requires ids <= logs.Keys
    ensures SeenIn(logs, ids) <= All(logs)
  {}

  /** In a tracked store, what the merge keeps of a key that points into the merged files is what it
      points to. */
  lemma PointedIsMerged(d: Disk, ids: seq<nat>, stamps: map<Key, nat>, k: Key)
    requires Tracked(d.logs, d.directory, stamps) && Ids(ids) <= d.logs.Keys
    requires k in d.directory && d.directory[k].fileId in Ids(ids)
    ensures var values := MergeAll(Visited(d.logs, ids)).values;
      && k in values && Stores(d.logs, d.directory[k], values[k])
      && values[k].key == k && !values[k].deleted && IsLatest(values[k], All(d.logs))
  {
    var segments, all := Visited(d.logs, ids), All(d.logs);
    var e :| Stores(d.logs, d.directory[k], e) && e.key == k && !e.deleted && IsLatest(e, all);
    StoredIsSeen(d.logs, d.directory[k], e);
    SeenOfVisit(d.logs, ids);
    SeenIsAmongAll(d.logs, Ids(ids));
    var seen := Seen(segments);
    assert e in seen && IsLatest(e, seen);
    assert Topped(seen, e.key, e.timestamp);
    hide Stores, MergeAll, Visited;
    LatestPutStays(segments, e);
    var w := MergeAll(segments).values[k];
    MergeAllIsSound(segments);
    assert w in all && w.timestamp == e.timestamp;
  }

  lemma OverlayAll(contents: map<Key, Value>, directory: map<Key, Pointer>, ids: set<nat>, values: map<Key, Value>)
    requires contents.Keys <= directory.Keys
    requires forall k <- directory :: directory[k].fileId in ids ==> k in values
    ensures Outside(contents, directory, ids) + values == contents + values
  {}

  /** A merge of a tracked store loses no key: no pointer is left dangling. */
  lemma TrackedOverlays(d: Disk, ids: seq<nat>, now: nat, logs: Logs, responses: seq<(Key, Pointer)>, d': Disk, stamps: map<Key, nat>)
    requires DiskOk(d) && Tracked(d.logs, d.directory, stamps)
    requires Ids(ids) <= d.logs.Keys - {d.active} && Replaces(d, ids, now, logs, responses, d')
    ensures DiskOk(d') && Contents(d') == Contents(d) + ValuesOf(MergeAll(Visited(d.logs, ids)))
    ensures Contents(d').Keys == d'.directory.Keys
  {
    MergeOverlays(d, ids, now, logs, responses, d');
    RedirectedKeys(d, ids, now, logs, responses, d');
    AnsweredKeys(FilesOf(d.logs), d.directory);
    hide MergeAll, Tracked, FilesOf, ContentsOf, DiskOk, Replaces, Outside;
    var values := ValuesOf(MergeAll(Visited(d.logs, ids)));
    forall k | k in d.directory ensures k in Contents(d) && (d.directory[k].fileId in Ids(ids) ==> k in values) {
      TrackedIsAnswered(d, stamps, k);
      if d.directory[k].fileId in Ids(ids) {
        PointedIsMerged(d, ids, stamps, k);
      }
    }
    OverlayAll(Contents(d), d.directory, Ids(ids), values);
  }

  lemma RedirectedKeys(d: Disk, ids: seq<nat>, now: nat, logs: Logs, responses: seq<(Key, Pointer)>, d': Disk)
    requires Ids(ids) <= d.logs.Keys && Replaces(d, ids, now, logs, responses, d')
    ensures d'.directory.Keys == d.directory.Keys + MergeAll(Visited(d.logs, ids)).values.Keys
  {
    hide MergeAll, ResponseMap;
  }

  lemma TrackedIsAnswered(d: Disk, stamps: map<Key, nat>, k: Key)
    requires DiskOk(d) && Tracked(d.logs, d.directory, stamps) && k in d.directory
    ensures k in Contents(d)
    ensures forall e :: Stores(d.logs, d.directory[k], e) && e.key == k && !e.deleted ==> Contents(d)[k] == e.value
  {
    FittingIsCoherent(d.logs);
    var e :| Stores(d.logs, d.directory[k], e) && e.key == k && !e.deleted;
    StoredIsSeen(d.logs, d.directory[k], e);
    PointedIsRead(FilesOf(d.logs), d.logs, d.directory, k);
    forall e | Stores(d.logs, d.directory[k], e) && e.key == k && !e.deleted ensures Contents(d)[k] == e.value {
      StoredHolds(d.logs, d.directory[k], e);
      HeldIsRead(FilesOf(d.logs), d.logs, k, e.value, d.directory[k]);
    }
  }

  lemma KeepsIf(contents: map<Key, Value>, visit: seq<seq<Record>>)
    requires forall k <- MergeAll(visit).values :: k in contents && contents[k] == MergeAll(visit).values[k].value
    ensures Keeps(contents, visit)
  {
    hide MergeAll;
  }

  /** In a tracked store, files that are self-contained are settled. */
  lemma SelfContainedIsSettled(d: Disk, ids: set<nat>, stamps: map<Key, nat>)
    requires Tracked(d.logs, d.directory, stamps) && ids <= d.logs.Keys && SelfContained(d, ids)
    ensures Settled(d, ids)
  {
    SeenIsAmongAll(d.logs, ids);
    forall e | e in SeenIn(d.logs, ids) && IsLatest(e, SeenIn(d.logs, ids)) ensures !e.deleted && IsLatest(e, All(d.logs)) {
      var p := d.directory[e.key];
      TrackedPoints(d.logs, d.directory, stamps, e.key);
      var w :| Stores(d.logs, p, w) && w.key == e.key && !w.deleted && IsLatest(w, All(d.logs));
      StoredIsSeen(d.logs, p, w);
      assert w in SeenIn(d.logs, ids);
      hide Stores;
      assert e.timestamp == w.timestamp;
    }
  }

  /** What a merge of settled files keeps of a key is what the key points to, the latest of its entries. */
  lemma SettledIsMerged(d: Disk, ids: seq<nat>, stamps: map<Key, nat>, k: Key)
    requires Tracked(d.logs, d.directory, stamps) && Ids(ids) <= d.logs.Keys && Settled(d, Ids(ids))
    requires k in MergeAll(Visited(d.logs, ids)).values
    ensures var r := MergeAll(Visited(d.logs, ids)).values[k];
      && k in d.directory && Stores(d.logs, d.directory[k], r)
      && r.key == k && !r.deleted && IsLatest(r, All(d.logs))
  {
    SeenOfVisit(d.logs, ids);
    VisitedIsOrdered(d, ids, stamps);
    hide Visited, MergeAll, Stores;
    MergeAllIsLatest(Visited(d.logs, ids));
    var r := MergeAll(Visited(d.logs, ids)).values[k];
    assert IsLatest(r, All(d.logs)) && !r.deleted;
    TrackedPoints(d.logs, d.directory, stamps, k);
    var e :| Stores(d.logs, d.directory[k], e) && e.key == k && !e.deleted && IsLatest(e, All(d.logs));
    assert e.timestamp == r.timestamp && e == r;
  }

  lemma VisitedIsOrdered(d: Disk, ids: seq<nat>, stamps: map<Key, nat>)
    requires Tracked(d.logs, d.directory, stamps) && Ids(ids) <= d.logs.Keys
    ensures forall s <- Visited(d.logs, ids) :: Ordered(s)
  {
    SeenOfVisit(d.logs, ids);
    hide Ordered, Distinguished, Dated, OthersDeleted, PointsToLatest;
    forall s | s in Visited(d.logs, ids) ensures Ordered(s) {
      var f :| f in Ids(ids) && d.logs[f] == s;
    }
  }

  /** A merge of settled files changes no value. */
  lemma SettledKeeps(d: Disk, ids: seq<nat>, stamps: map<Key, nat>)
    requires DiskOk(d) && Tracked(d.logs, d.directory, stamps) && Ids(ids) <= d.logs.Keys && Settled(d, Ids(ids))
    ensures Keeps(Contents(d), Visited(d.logs, ids))
  {
    var segments := Visited(d.logs, ids);
    hide Visited, MergeAll, Tracked, DiskOk, Stores, Contents, Settled;
    forall k | k in MergeAll(segments).values ensures k in Contents(d) && Contents(d)[k] == MergeAll(segments).values[k].value {
      SettledIsMerged(d, ids, stamps, k);
      TrackedIsAnswered(d, stamps, k);
    }
    KeepsIf(Contents(d), segments);
  }

  /** Every entry after a merge of settled files was there before; new files hold each key's latest. */
  lemma NewEntries(d: Disk, ids: seq<nat>, now: nat, logs: Logs, responses: seq<(Key, Pointer)>, d': Disk, stamps: map<Key, nat>, f: nat, e: Record)
    requires Tracked(d.logs, d.directory, stamps) && Ids(ids) <= d.logs.Keys && Settled(d, Ids(ids))
    requires Replaces(d, ids, now, logs, responses, d')
    requires f in d'.logs && e in d'.logs[f]
    ensures e in All(d.logs)
    ensures f !in d.logs ==> e.key in MergeAll(Visited(d.logs, ids)).values && e == MergeAll(Visited(d.logs, ids)).values[e.key]
  {
    hide Visited, MergeAll, WrittenBack, Tracked, Settled, NoneRevived, Preserving;
    if f !in d.logs {
      assert WrittenTo(responses, MergeAll(Visited(d.logs, ids)).values, now, f, e);
      WrittenAsIs(d, ids, now, stamps, e.key);
    }
  }

  lemma NewFilesOrdered(d: Disk, ids: seq<nat>, now: nat, logs: Logs, responses: seq<(Key, Pointer)>, d': Disk, stamps: map<Key, nat>, f: nat)
    requires Tracked(d.logs, d.directory, stamps) && Ids(ids) <= d.logs.Keys && Settled(d, Ids(ids))
    requires Replaces(d, ids, now, logs, responses, d') && f in d'.logs
    ensures Ordered(d'.logs[f])
  {
    if f in d.logs {
      assert d'.logs[f] == d.logs[f];
    } else {
      hide Replaces, Tracked, Settled;
      forall i | 0 <= i < |d'.logs[f]|
        ensures var e := d'.logs[f][i];
          e.key in MergeAll(Visited(d.logs, ids)).values && e == MergeAll(Visited(d.logs, ids)).values[e.key]
      {
        NewEntries(d, ids, now, logs, responses, d', stamps, f, d'.logs[f][i]);
      }
    }
  }

  /** The entries after a merge are among those before it, and a key that is not in the directory keeps
      all of its entries. */
  lemma MergedEntries(d: Disk, ids: seq<nat>, now: nat, logs: Logs, responses: seq<(Key, Pointer)>, d': Disk, stamps: map<Key, nat>)
    requires Tracked(d.logs, d.directory, stamps) && Ids(ids) <= d.logs.Keys && Settled(d, Ids(ids))
    requires Replaces(d, ids, now, logs, responses, d')
    ensures All(d'.logs) <= All(d.logs)
    ensures forall e <- All(d.logs) :: e.key !in d.directory ==> e in All(d'.logs)
  {
    forall e | e in All(d'.logs) ensures e in All(d.logs) {
      var f :| f in d'.logs && e in d'.logs[f];
      NewEntries(d, ids, now, logs, responses, d', stamps, f, e);
    }
    hide MergeAll, Visited, WrittenBack, OnlyWritten, Tracked;
    forall e | e in All(d.logs) && e.key !in d.directory ensures e in All(d'.logs) {
      var f :| f in d.logs && e in d.logs[f];
      NotMerged(d, Ids(ids), stamps, f, e);
      assert f in d'.logs && e in d'.logs[f];
    }
  }

  /** A key that is not in the directory is not seen in settled files. */
  lemma NotMerged(d: Disk, ids: set<nat>, stamps: map<Key, nat>, f: nat, e: Record)
    requires Tracked(d.logs, d.directory, stamps) && ids <= d.logs.Keys && Settled(d, ids)
    requires f in d.logs && e in d.logs[f] && e.key !in d.directory
    ensures f !in ids
  {
    if f in ids {
      SomeLatest(SeenIn(d.logs, ids), e.key);
    }
  }

  /** What is written back of settled files is exactly what was merged, with its timestamp. */
  lemma WrittenAsIs(d: Disk, ids: seq<nat>, now: nat, stamps: map<Key, nat>, k: Key)
    requires Tracked(d.logs, d.directory, stamps) && Ids(ids) <= d.logs.Keys && Settled(d, Ids(ids))
    requires k in MergeAll(Visited(d.logs, ids)).values
    ensures var r := MergeAll(Visited(d.logs, ids)).values[k];
      k in d.directory && Preserving(r, now) == r && r.key == k && !r.deleted && IsLatest(r, All(d.logs))
  {
    SettledIsMerged(d, ids, stamps, k);
    hide Visited, MergeAll, Stores;
  }

  /** Merging settled files keeps the directory on the latest entries. */
  lemma TrackedMerge(d: Disk, ids: seq<nat>, now: nat, logs: Logs, responses: seq<(Key, Pointer)>, d': Disk, stamps: map<Key, nat>)
    requires Tracked(d.logs, d.directory, stamps) && Ids(ids) <= d.logs.Keys && Settled(d, Ids(ids))
    requires Replaces(d, ids, now, logs, responses, d')
    ensures Tracked(d'.logs, d'.directory, stamps)
  {
    MergedEntries(d, ids, now, logs, responses, d', stamps);
    forall f | f in d'.logs ensures Ordered(d'.logs[f]) {
      NewFilesOrdered(d, ids, now, logs, responses, d', stamps, f);
    }
    forall k | k in d'.directory ensures k in d.directory && PointsToLatest(d'.logs, k, d'.directory[k]) {
      RedirectedStays(d, ids, now, logs, responses, d', stamps, k);
    }
    RedirectedKeys(d, ids, now, logs, responses, d');
    FewerEntries(All(d.logs), All(d'.logs), d.directory.Keys, d'.directory.Keys, stamps);
  }

  /** Fewer entries are still told apart and dated; the latest entry of a key that loses none is as before. */
  lemma FewerEntries(all: set<Record>, fewer: set<Record>, keys: set<Key>, keys': set<Key>, stamps: map<Key, nat>)
    requires fewer <= all && Distinguished(all) && Dated(all, stamps) && keys <= keys'
    requires (forall e <- all :: e.key !in keys ==> e in fewer) && OthersDeleted(all, keys)
    ensures Distinguished(fewer) && Dated(fewer, stamps) && OthersDeleted(fewer, keys')
  {
    forall e | e in fewer && IsLatest(e, fewer) && e.key !in keys ensures e.deleted {
      assert IsLatest(e, all);
    }
  }

  lemma RedirectedStays(d: Disk, ids: seq<nat>, now: nat, logs: Logs, responses: seq<(Key, Pointer)>, d': Disk, stamps: map<Key, nat>, k: Key)
    requires Tracked(d.logs, d.directory, stamps) && Ids(ids) <= d.logs.Keys && Settled(d, Ids(ids))
    requires Replaces(d, ids, now, logs, responses, d') && All(d'.logs) <= All(d.logs) && k in d'.directory
    ensures k in d.directory && PointsToLatest(d'.logs, k, d'.directory[k])
  {
    hide Visited, MergeAll, Stores, Preserving, Tracked, Settled, PointsToLatest, All;
    var changes := MergeAll(Visited(d.logs, ids)).values;
    if k in changes {
      WrittenAsIs(d, ids, now, stamps, k);
      StaysLatest(d, d', logs, Ids(ids), d'.directory[k], changes[k]);
    } else {
      UnmergedStays(d, ids, logs, responses, d', stamps, now, k);
    }
  }

  lemma StaysLatest(d: Disk, d': Disk, logs: Logs, ids: set<nat>, p: Pointer, e: Record)
    requires All(d'.logs) <= All(d.logs) && d'.logs == logs - ids
    requires IsLatest(e, All(d.logs)) && !e.deleted && Stores(logs, p, e) && p.fileId !in ids
    ensures PointsToLatest(d'.logs, e.key, p)
  {
    StoredOutside(logs, ids, p, e);
    StoredIsSeen(d'.logs, p, e);
    hide Stores;
    assert IsLatest(e, All(d'.logs));
  }

  lemma UnmergedStays(d: Disk, ids: seq<nat>, logs: Logs, responses: seq<(Key, Pointer)>, d': Disk, stamps: map<Key, nat>, now: nat, k: Key)
    requires Tracked(d.logs, d.directory, stamps) && All(d'.logs) <= All(d.logs)
    requires Ids(ids) <= d.logs.Keys && Replaces(d, ids, now, logs, responses, d')
    requires k in d'.directory && k !in MergeAll(Visited(d.logs, ids)).values
    ensures k in d.directory && PointsToLatest(d'.logs, k, d'.directory[k])
  {
    assert Extends(d.logs, logs);
    hide Visited, MergeAll, Stores;
    assert k in d.directory && d'.directory[k] == d.directory[k];
    if d.directory[k].fileId in Ids(ids) {
      PointedIsMerged(d, ids, stamps, k);
    }
    var e :| Stores(d.logs, d.directory[k], e) && e.key == k && !e.deleted && IsLatest(e, All(d.logs));
    ExtensionKeepsStored(d.logs, logs, d.directory[k], e);
    StaysLatest(d, d', logs, Ids(ids), d.directory[k], e);
  }

  // ----- merging keys that are newer elsewhere -----

  /** Whatever a tracked store has elsewhere: a merged key whose latest merged entry is a put answers with
      that entry after the merge. */
  lemma MergedWins(d: Disk, ids: seq<nat>, now: nat, logs: Logs, responses: seq<(Key, Pointer)>, d': Disk, stamps: map<Key, nat>, e: Record)
    requires DiskOk(d) && Tracked(d.logs, d.directory, stamps)
    requires Ids(ids) <= d.logs.Keys - {d.active} && Replaces(d, ids, now, logs, responses, d')
    requires IsLatest(e, SeenIn(d.logs, Ids(ids))) && !e.deleted
    ensures e.key in Contents(d') && Contents(d')[e.key] == e.value
  {
    TrackedOverlays(d, ids, now, logs, responses, d', stamps);
    LatestIsMerged(d, ids, stamps, e);
    hide MergeAll, Visited, Replaces, Contents, DiskOk, Tracked;
  }

  lemma LatestIsMerged(d: Disk, ids: seq<nat>, stamps: map<Key, nat>, e: Record)
    requires Tracked(d.logs, d.directory, stamps) && Ids(ids) <= d.logs.Keys
    requires IsLatest(e, SeenIn(d.logs, Ids(ids))) && !e.deleted
    ensures e.key in MergeAll(Visited(d.logs, ids)).values && MergeAll(Visited(d.logs, ids)).values[e.key] == e
  {
    SeenOfVisit(d.logs, ids);
    SeenIsAmongAll(d.logs, Ids(ids));
    VisitedIsOrdered(d, ids, stamps);
    var segments := Visited(d.logs, ids);
    assert Topped(Seen(segments), e.key, e.timestamp);
    hide Visited, MergeAll;
    LatestPutStays(segments, e);
    MergeAllIsSound(segments);
    var w := MergeAll(segments).values[e.key];
    assert w.timestamp == e.timestamp && w.key == e.key && w in All(d.logs);
  }

  /** A newer entry elsewhere leaves the directory off the latest entry. */
  lemma NewerIsLost(d: Disk, ids: seq<nat>, now: nat, logs: Logs, responses: seq<(Key, Pointer)>, d': Disk, stamps: map<Key, nat>, e: Record, w: Record)
    requires DiskOk(d) && Tracked(d.logs, d.directory, stamps)
    requires Ids(ids) <= d.logs.Keys - {d.active} && Replaces(d, ids, now, logs, responses, d')
    requires IsLatest(e, SeenIn(d.logs, Ids(ids))) && !e.deleted
    requires w in All(d.logs) && w.key == e.key && w.timestamp > e.timestamp
    ensures !Tracked(d'.logs, d'.directory, stamps)
  {
    TrackedOverlays(d, ids, now, logs, responses, d', stamps);
    LatestIsMerged(d, ids, stamps, e);
    SeenIsAmongAll(d.logs, Ids(ids));
    assert Preserving(e, now) == e;
    var p := d'.directory[e.key];
    NewerIsThere(d, ids, now, logs, responses, d', e, w);
    if Tracked(d'.logs, d'.directory, stamps) {
      TrackedPoints(d'.logs, d'.directory, stamps, e.key);
      FittingIsCoherent(d'.logs);
      hide Stores, MergeAll, Visited, Replaces, ReadAt, Tracked, Contents;
      var x :| Stores(d'.logs, p, x) && x.key == e.key && !x.deleted && IsLatest(x, All(d'.logs));
      StoredIsRead(FilesOf(d'.logs), d'.logs, p, x);
      StoredIsRead(FilesOf(d'.logs), d'.logs, p, e);
    }
  }

  lemma NewerIsThere(d: Disk, ids: seq<nat>, now: nat, logs: Logs, responses: seq<(Key, Pointer)>, d': Disk, e: Record, w: Record)
    requires Ids(ids) <= d.logs.Keys && Replaces(d, ids, now, logs, responses, d')
    requires e.key in MergeAll(Visited(d.logs, ids)).values && MergeAll(Visited(d.logs, ids)).values[e.key] == e && Preserving(e, now) == e
    requires IsLatest(e, SeenIn(d.logs, Ids(ids))) && w in All(d.logs) && w.key == e.key && w.timestamp > e.timestamp
    ensures e.key in d'.directory && Stores(d'.logs, d'.directory[e.key], e) && w in All(d'.logs)
  {
    hide MergeAll, Visited, Stores, OnlyWritten, ResponseMap;
    StoredOutside(logs, Ids(ids), ResponseMap(responses)[e.key], e);
    var f :| f in d.logs && w in d.logs[f];
    assert f !in Ids(ids) by {
      if f in Ids(ids) {
        SeenThere(d.logs, Ids(ids), f, w);
      }
    }
    assert f in d'.logs && w in d'.logs[f];
  }

  lemma SeenThere(logs: Logs, ids: set<nat>, f: nat, e: Record)
    requires ids <= logs.Keys && f in ids && e in logs[f]
    ensures e in SeenIn(logs, ids)
  {}

  /** If the latest entry of no merged key is a tombstone, a merge keeps a store tracked if and only if no
      merged key has a newer entry outside the merged files. */
  lemma TrackedExactly(d: Disk, ids: seq<nat>, now: nat, logs: Logs, responses: seq<(Key, Pointer)>, d': Disk, stamps: map<Key, nat>)
    requires DiskOk(d) && Tracked(d.logs, d.directory, stamps)
    requires Ids(ids) <= d.logs.Keys - {d.active} && Replaces(d, ids, now, logs, responses, d')
    requires NoneDeleted(SeenIn(d.logs, Ids(ids)))
    ensures Tracked(d'.logs, d'.directory, stamps) <==> NoneNewer(d, Ids(ids))
    ensures NoneNewer(d, Ids(ids)) ==> Contents(d') == Contents(d)
  {
    if NoneNewer(d, Ids(ids)) {
      hide Tracked, Replaces, DiskOk, Contents, MergeAll, Visited;
      TrackedMerge(d, ids, now, logs, responses, d', stamps);
      TrackedOverlays(d, ids, now, logs, responses, d', stamps);
      SettledKeeps(d, ids, stamps);
    } else {
      var e :| e in SeenIn(d.logs, Ids(ids)) && IsLatest(e, SeenIn(d.logs, Ids(ids))) && !IsLatest(e, All(d.logs));
      SeenIsAmongAll(d.logs, Ids(ids));
      var w :| w in All(d.logs) && w.key == e.key && w.timestamp > e.timestamp;
      hide Tracked, Replaces, DiskOk;
      NewerIsLost(d, ids, now, logs, responses, d', stamps, e, w);
    }
  }

  // ----- an older value that comes back -----

  /** A store whose key k was written twice, a second apart, with another key in between: segments of one
      entry each, the newest active. */
  ghost function Rewritten(k: Key, j: Key, older: Value, newer: Value, other: Value): Disk
  {
    var first, second, third := Record(k, older, false, 1), Record(j, other, false, 1), Record(k, newer, false, 2);
    Disk(map[0 := [first], 1 := [second], 2 := [third]],
         map[k := Pointer(2, 0, |Encode(third)|), j := Pointer(1, 0, |Encode(second)|)], 2, 0)
  }

  lemma AloneIsStored(logs: Logs, f: nat, r: Record)
    requires f in logs && logs[f] == [r]
    ensures Stores(logs, Pointer(f, 0, |Encode(r)|), r)
  {
    hide Encode;
    assert [r][..0] == [] && EncodeAll([]) == [];
    assert NamesRecord(logs[f], Pointer(f, 0, |Encode(r)|), r, 0);
  }

  lemma RewrittenEntries(k: Key, j: Key, older: Value, newer: Value, other: Value)
    ensures var d := Rewritten(k, j, older, newer, other);
      && All(d.logs) == {Record(k, older, false, 1), Record(j, other, false, 1), Record(k, newer, false, 2)}
      && SeenIn(d.logs, {0, 1}) == {Record(k, older, false, 1), Record(j, other, false, 1)}
  {
    hide Encode;
    var d := Rewritten(k, j, older, newer, other);
    assert d.logs[0][0] in d.logs[0] && d.logs[1][0] in d.logs[1] && d.logs[2][0] in d.logs[2];
  }

  lemma RewrittenIsTracked(k: Key, j: Key, older: Value, newer: Value, other: Value)
    requires k != j
    ensures var d := Rewritten(k, j, older, newer, other); Tracked(d.logs, d.directory, map[k := 2, j := 1])
  {
    hide Encode, All, Stores, Tracked, PointsToLatest, IsLatest, OthersDeleted, Distinguished, Dated, Ordered;
    var d := Rewritten(k, j, older, newer, other);
    RewrittenEntries(k, j, older, newer, other);
    RewrittenSets(k, j, older, newer, other);
    AloneIsStored(d.logs, 1, Record(j, other, false, 1));
    AloneIsStored(d.logs, 2, Record(k, newer, false, 2));
    NewestIsLatest(d.logs, Record(j, other, false, 1), d.directory[j]);
    NewestIsLatest(d.logs, Record(k, newer, false, 2), d.directory[k]);
    assert d.directory.Keys == {k, j};
    TrackedIf(d.logs, d.directory, map[k := 2, j := 1]);
  }

  lemma RewrittenSets(k: Key, j: Key, older: Value, newer: Value, other: Value)
    requires k != j
    ensures var first, second, third := Record(k, older, false, 1), Record(j, other, false, 1), Record(k, newer, false, 2);
      var all := {first, second, third};
      && Distinguished(all) && Dated(all, map[k := 2, j := 1]) && OthersDeleted(all, {k, j})
      && IsLatest(second, all) && IsLatest(third, all)
      && Ordered([first]) && Ordered([second]) && Ordered([third])
  {}

  /** Without any tombstone or tie: merging the two inactive segments brings the older value of k back,
      since the directory is redirected to it although a newer one stands in the active segment. */
  lemma OlderComesBack(k: Key, j: Key, older: Value, newer: Value, other: Value, ids: seq<nat>, now: nat,
                       logs: Logs, responses: seq<(Key, Pointer)>, d': Disk)
    requires k != j && Fits(Record(k, older, false, 1)) && Fits(Record(j, other, false, 1)) && Fits(Record(k, newer, false, 2))
    requires Ids(ids) == {0, 1} && Replaces(Rewritten(k, j, older, newer, other), ids, now, logs, responses, d')
    ensures var d := Rewritten(k, j, older, newer, other); DiskOk(d) && k in Contents(d) && Contents(d)[k] == newer
    ensures k in Contents(d') && Contents(d')[k] == older
  {
    hide *;
    var d := Rewritten(k, j, older, newer, other);
    RewrittenIsTracked(k, j, older, newer, other);
    RewrittenIsOk(k, j, older, newer, other);
    RewrittenPlaces(k, j, older, newer, other);
    TrackedIsAnswered(d, map[k := 2, j := 1], k);
    MergedWins(d, ids, now, logs, responses, d', map[k := 2, j := 1], Record(k, older, false, 1));
  }

  lemma RewrittenPlaces(k: Key, j: Key, older: Value, newer: Value, other: Value)
    requires k != j
    ensures var d := Rewritten(k, j, older, newer, other);
      && d.logs.Keys == {0, 1, 2} && d.active == 2 && k in d.directory
      && Stores(d.logs, d.directory[k], Record(k, newer, false, 2))
      && IsLatest(Record(k, older, false, 1), SeenIn(d.logs, {0, 1}))
  {
    hide Encode;
    var d := Rewritten(k, j, older, newer, other);
    RewrittenEntries(k, j, older, newer, other);
    AloneIsStored(d.logs, 2, Record(k, newer, false, 2));
    hide Stores;
  }

  lemma RewrittenIsOk(k: Key, j: Key, older: Value, newer: Value, other: Value)
    requires k != j && Fits(Record(k, older, false, 1)) && Fits(Record(j, other, false, 1)) && Fits(Record(k, newer, false, 2))
    ensures DiskOk(Rewritten(k, j, older, newer, other))
  {
    var d := Rewritten(k, j, older, newer, other);
    hide Encode, Fits;
    AloneIsStored(d.logs, 1, Record(j, other, false, 1));
    AloneIsStored(d.logs, 2, Record(k, newer, false, 2));
    hide Stores, Holds;
    StoredHolds(d.logs, d.directory[j], Record(j, other, false, 1));
    StoredHolds(d.logs, d.directory[k], Record(k, newer, false, 2));
  }
}
