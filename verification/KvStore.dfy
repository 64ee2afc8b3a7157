/** The key-value store of crates/kv/src as objects: segments, key directory, and the store over them,
    each method proved to take the steps of KvDisk. The directory on disk is a map from file ids to
    bytes; no file operation fails. */
module KvStore {
  import opened Basics
  import opened Bytes
  import opened KvEntry
  import opened KvMerge
  import opened KvLog
  import opened KvDisk
  import opened KvRuns

  /** A handle on a segment file with the offset its next write goes to. */
  datatype Segment = Segment(fileId: nat, writeOffset: nat)

  /** The number of inactive segments. */
  function Count(inactive: map<nat, Segment>): nat { |inactive| }

  /** Files that are new since then. */
  ghost predicate NewSince(lastId: nat, logs0: Logs, logs: Logs) { forall f <- logs :: f !in logs0 ==> f > lastId }

  /** The contents are those of the logs with these ids. */
  ghost predicate Decoded(ids: seq<nat>, contents: seq<seq<MappedEntry>>, logs: Logs)
  {
    |ids| == |contents| && forall i :: 0 <= i < |ids| ==> ids[i] in logs && contents[i] == MappedLog(logs[ids[i]])
  }

  lemma NothingDecoded(logs: Logs)
    ensures Decoded([], [], logs)
  {}

  lemma DecodedPush(ids: seq<nat>, contents: seq<seq<MappedEntry>>, logs: Logs, f: nat, entries: seq<MappedEntry>)
    requires Decoded(ids, contents, logs) && f in logs && entries == MappedLog(logs[f])
    ensures Decoded(ids + [f], contents + [entries], logs)
  {
    hide MappedLog;
  }

  lemma DecodedMeans(ids: seq<nat>, contents: seq<seq<MappedEntry>>, logs: Logs)
    requires Decoded(ids, contents, logs)
    ensures |ids| == |contents| && forall i :: 0 <= i < |ids| ==> ids[i] in logs && contents[i] == MappedLog(logs[ids[i]])
  {}

  // ----- segments -----

  class Segments {
    var files: Files
    var active: Segment
    var inactive: map<nat, Segment>
    var lastId: nat
    const maxSize: nat
    ghost var logs: Logs

    ghost predicate Valid()
      reads this
    {
      && Coherent(files, logs)
      && files.Keys == inactive.Keys + {active.fileId}
      && active.fileId !in inactive
      && active.writeOffset == |files[active.fileId]|
      && forall f <- files :: f <= lastId
    }

    constructor (maxSize: nat)
      ensures Valid() && inactive == map[] && logs == map[active.fileId := []] && this.maxSize == maxSize
    {
      this.maxSize := maxSize;
      files, active, inactive, lastId := map[0 := []], Segment(0, 0), map[], 0;
      logs := map[0 := []];
    }

    /** A file id from the monotonic clock: later than every one before it. */
    method NextFileId() returns (id: nat)
      modifies this`lastId
      ensures id > old(lastId) && lastId == id
    {
      lastId := lastId + 1;
      id := lastId;
    }

    /** Seals a full active segment and starts a new one; nothing that is stored changes. */
    method MaybeRolloverActive()
      requires Valid()
      modifies this
      ensures Valid() && lastId >= old(lastId)
      ensures if old(active.writeOffset) >= maxSize
              then active.fileId > old(lastId) && logs == old(logs)[active.fileId := []]
              else active == old(active) && logs == old(logs)
    {
      hide Coherent;
      if active.writeOffset >= maxSize {
        var id := NextFileId();
        NewFile(files, logs, id);
        inactive := inactive[active.fileId := active];
        files := files[id := []];
        logs := logs[id := []];
        active := Segment(id, 0);
      }
    }

    /** Appends to the active segment, after a rollover if it is full. */
    method Append(key: Key, value: Value, deleted: bool, now: nat) returns (p: Pointer)
      requires Valid() && Fits(Record(key, value, deleted, 0))
      modifies this
      ensures Valid() && lastId >= old(lastId) && NewSince(old(lastId), old(logs), logs)
      ensures AppendsTo(old(logs), old(active.fileId), Record(key, value, deleted, Stamp(now)), maxSize, logs, active.fileId, p)
      ensures AppendsTo(old(logs), old(active.fileId), Record(key, value, deleted, now % 0x1_0000_0000), maxSize, logs, active.fileId, p)
    {
      StampIs(now);
      hide Coherent, Encode, EncodeAll, Names, Fits, Stamp;
      FitsAtAnyTime(key, value, deleted, now);
      CoherentKeys(files, logs);
      CoherentFile(files, logs, active.fileId);
      MaybeRolloverActive();
      var r := Record(key, value, deleted, Stamp(now));
      p := Write(r);
      assert [] + [r] == [r];
      assert old(logs)[active.fileId := []][active.fileId := [r]] == old(logs)[active.fileId := [r]];
    }

    /** Writes an encoded entry at the write offset of the active segment. */
    method Write(r: Record) returns (p: Pointer)
      requires Valid() && Fits(r)
      modifies this
      ensures Valid() && inactive == old(inactive) && active.fileId == old(active.fileId) && lastId == old(lastId)
      ensures active.fileId in old(logs) && logs == old(logs)[active.fileId := old(logs)[active.fileId] + [r]]
      ensures p.fileId == active.fileId && Names(logs[p.fileId], p, |logs[p.fileId]| - 1)
    {
      hide EncodeAll, Encode, Coherent, Names;
      var encoded := Encode(r);
      var f := active.fileId;
      CoherentKeys(files, logs);
      PushRecord(files, logs, f, r);
      p := Pointer(f, active.writeOffset, |encoded|);
      files := files[f := files[f] + encoded];
      logs := logs[f := logs[f] + [r]];
      active := active.(writeOffset := active.writeOffset + |encoded|);
    }

    /** Gives back the entry that stands at a place, and nothing when the file is gone. */
    method Read(fileId: nat, offset: nat, size: nat) returns (r: Option<Record>)
      requires Valid()
      ensures forall e :: Stores(logs, Pointer(fileId, offset, size), e) ==> r == Some(e)
      ensures fileId !in logs ==> r.None?
    {
      hide Coherent, ReadAt, Stores;
      CoherentKeys(files, logs);
      if fileId == active.fileId {
        r := ReadAt(files, Pointer(fileId, offset, size));
      } else if fileId in inactive {
        r := ReadAt(files, Pointer(fileId, offset, size));
      } else {
        r := None;
      }
      forall e | Stores(logs, Pointer(fileId, offset, size), e) ensures r == Some(e) {
        StoredIsRead(files, logs, Pointer(fileId, offset, size), e);
      }
    }

    /** Reads whole inactive segments, at most so many, in no particular order. */
    method ReadInactive(total: nat) returns (ids: seq<nat>, contents: seq<seq<MappedEntry>>)
      requires Valid()
      ensures |ids| == |contents| && Ids(ids) <= inactive.Keys
      ensures |Ids(ids)| == |ids| == if total < Count(inactive) then total else Count(inactive)
      ensures forall i :: 0 <= i < |ids| ==> ids[i] in logs && contents[i] == MappedLog(logs[ids[i]])
    {
      hide AllFit, EncodeAll, MappedLog, Coherent, Ids, Decoded;
      CoherentKeys(files, logs);
      ids, contents := [], [];
      NoIds();
      NothingDecoded(logs);
      var pending := inactive.Keys;
      while pending != {} && |ids| < total
        invariant |ids| == |contents| && pending == inactive.Keys - Ids(ids)
        invariant Ids(ids) <= inactive.Keys && |Ids(ids)| == |ids|
        invariant |pending| == |inactive| - |ids| && |ids| <= total
        invariant Decoded(ids, contents, logs)
        decreases pending
      {
        var f :| f in pending;
        CoherentFile(files, logs, f);
        var entries := DecodeMulti(files[f], logs[f]);
        IdsPush(ids, f);
        DecodedPush(ids, contents, logs, f, entries);
        ids, contents := ids + [f], contents + [entries];
        pending := pending - {f};
      }
      DecodedMeans(ids, contents, logs);
    }

    /** Opens a new segment file and registers it as inactive. */
    method NewSegment() returns (segment: Segment)
      requires Valid()
      modifies this
      ensures Valid() && active == old(active) && lastId >= old(lastId)
      ensures segment.fileId > old(lastId) && segment.fileId !in old(files) && segment.writeOffset == 0
      ensures logs == old(logs)[segment.fileId := []] && inactive == old(inactive)[segment.fileId := segment]
      ensures files == old(files)[segment.fileId := []]
    {
      hide Coherent;
      var id := NextFileId();
      segment := Segment(id, 0);
      NewFile(files, logs, id);
      inactive := inactive[id := segment];
      files := files[id := []];
      logs := logs[id := []];
    }

    /** Writes an entry at the write offset of a segment that is not the active one. */
    method AppendTo(segment: Segment, r: Record) returns (p: Pointer, segment': Segment)
      requires Valid() && segment.fileId in inactive && Fits(r)
      requires segment.fileId in files && segment.writeOffset == |files[segment.fileId]|
      modifies this
      ensures Valid() && active == old(active) && inactive == old(inactive) && lastId == old(lastId)
      ensures segment'.fileId == segment.fileId && segment.fileId in files && segment'.writeOffset == |files[segment.fileId]|
      ensures segment.fileId in old(logs)
      ensures logs == old(logs)[segment.fileId := old(logs)[segment.fileId] + [r]]
      ensures p.fileId == segment.fileId && Names(logs[p.fileId], p, |logs[p.fileId]| - 1)
    {
      hide EncodeAll, Encode, Coherent, Names;
      var encoded := Encode(r);
      var f := segment.fileId;
      CoherentKeys(files, logs);
      PushRecord(files, logs, f, r);
      p := Pointer(f, segment.writeOffset, |encoded|);
      files := files[f := files[f] + encoded];
      logs := logs[f := logs[f] + [r]];
      segment' := segment.(writeOffset := segment.writeOffset + |encoded|);
    }

    /** Writes one merged entry, and moves on to a new segment if that one is full. */
    method WriteBackOne(segment: Segment, r: Record, now: nat) returns (p: Pointer, segment': Segment)
      requires Valid() && segment.fileId in inactive && Fits(r)
      requires segment.fileId in files && segment.writeOffset == |files[segment.fileId]|
      modifies this
      ensures Valid() && active == old(active) && old(inactive).Keys <= inactive.Keys && lastId >= old(lastId)
      ensures segment'.fileId in inactive && segment'.fileId in files && segment'.writeOffset == |files[segment'.fileId]|
      ensures segment'.fileId == segment.fileId || segment'.fileId > old(lastId)
      ensures segment.fileId in old(logs)
      ensures OneMoreOrNew(old(logs), logs, segment.fileId, Preserving(r, now), segment'.fileId)
      ensures p.fileId == segment.fileId && Stores(logs, p, Preserving(r, now))
    {
      hide Coherent, Fits, Names, Preserving;
      CoherentKeys(files, logs);
      PreservingFits(r, now);
      p, segment' := AppendTo(segment, Preserving(r, now));
      assert NamesRecord(logs[p.fileId], p, Preserving(r, now), |logs[p.fileId]| - 1);
      if segment'.writeOffset >= maxSize {
        CoherentKeys(files, logs);
        ghost var logs1 := logs;
        segment' := NewSegment();
        assert Extends(logs1, logs);
        ExtensionKeepsStored(logs1, logs, p, Preserving(r, now));
      }
    }

    /** Writes merged entries to new inactive segments, in no particular order of keys, each entry
        with the timestamp it had. Nothing that was there is touched, and nothing else is written. */
    method WriteBack(changes: map<Key, Record>, now: nat) returns (responses: seq<(Key, Pointer)>)
      requires Valid() && forall k <- changes :: Fits(changes[k]) && changes[k].key == k
      modifies this
      ensures Valid() && active == old(active) && old(inactive).Keys <= inactive.Keys && lastId >= old(lastId)
      ensures forall f <- old(logs) :: f in logs && logs[f] == old(logs)[f]
      ensures NewSince(old(lastId), old(logs), logs)
      ensures WrittenBack(responses, changes.Keys, changes, now, old(logs), logs)
      ensures OnlyWritten(responses, changes, now, old(logs), logs)
    {
      hide Coherent, Fits, WrittenBack, OnlyWritten, Stores, OneMoreOrNew, Preserving;
      ghost var logs0 := logs;
      CoherentKeys(files, logs);
      var segment := NewSegment();
      responses := [];
      NothingWritten(changes, now, logs0, logs, segment.fileId);
      var pending := changes.Keys;
      ghost var done: set<Key> := {};
      while pending != {}
        invariant Valid() && active == old(active) && old(inactive).Keys <= inactive.Keys && lastId >= old(lastId)
        invariant done + pending == changes.Keys && done !! pending
        invariant segment.fileId in inactive && segment.fileId in files && segment.fileId > old(lastId)
        invariant segment.fileId !in logs0 && segment.writeOffset == |files[segment.fileId]|
        invariant (forall f <- logs0 :: f in logs && logs[f] == logs0[f]) && NewSince(old(lastId), logs0, logs)
        invariant WrittenBack(responses, done, changes, now, logs0, logs)
        invariant OnlyWritten(responses, changes, now, logs0, logs)
        decreases pending
      {
        var k :| k in pending;
        ghost var before, f := logs, segment.fileId;
        CoherentKeys(files, logs);
        var p;
        p, segment := WriteBackOne(segment, changes[k], now);
        CoherentKeys(files, logs);
        OneMoreMeans(before, logs, f, Preserving(changes[k], now), segment.fileId);
        WriteOneMore(responses, done, changes, now, logs0, before, logs, k, p, segment.fileId);
        responses := responses + [(k, p)];
        pending, done := pending - {k}, done + {k};
      }
      assert done == changes.Keys;
    }

    /** Removes inactive segments and their files. */
    method Remove(ids: seq<nat>)
      requires Valid() && Ids(ids) <= inactive.Keys
      modifies this
      ensures Valid() && active == old(active) && lastId == old(lastId)
      ensures inactive == old(inactive) - Ids(ids) && files == old(files) - Ids(ids) && logs == old(logs) - Ids(ids)
    {
      hide Coherent, Ids;
      NoIds();
      assert ids[..0] == [];
      for i := 0 to |ids|
        invariant Valid() && active == old(active) && lastId == old(lastId)
        invariant inactive == old(inactive) - Ids(ids[..i])
        invariant files == old(files) - Ids(ids[..i]) && logs == old(logs) - Ids(ids[..i])
      {
        assert ids[..i + 1] == ids[..i] + [ids[i]];
        IdsPush(ids[..i], ids[i]);
        InIds(ids, i);
        if ids[i] in inactive {
          DropFile(files, logs, ids[i]);
          inactive := inactive - {ids[i]};
          files := files - {ids[i]};
          logs := logs - {ids[i]};
        }
      }
      assert ids[..|ids|] == ids;
    }
  }

  /** The logs after one entry was written to a file, and perhaps a new file was opened. */
  ghost predicate OneMoreOrNew(logs: Logs, logs': Logs, f: nat, r: Record, g: nat)
    requires f in logs
  {
    if g == f then logs' == logs[f := logs[f] + [r]] else g !in logs && logs' == logs[f := logs[f] + [r]][g := []]
  }

  lemma OneMoreMeans(logs: Logs, logs': Logs, f: nat, r: Record, g: nat)
    requires f in logs && OneMoreOrNew(logs, logs', f, r, g)
    ensures logs'.Keys == logs.Keys + {g} && logs'[f] == logs[f] + [r] && (g != f ==> logs'[g] == [] && g !in logs)
    ensures forall h <- logs :: h != f ==> logs'[h] == logs[h]
  {}

  lemma NothingWritten(changes: map<Key, Record>, now: nat, logs0: Logs, logs: Logs, f: nat)
    requires logs == logs0[f := []] && f !in logs0
    ensures WrittenBack([], {}, changes, now, logs0, logs) && OnlyWritten([], changes, now, logs0, logs)
  {}

  lemma ResponsesPush(responses: seq<(Key, Pointer)>, k: Key, p: Pointer)
    ensures ResponseMap(responses + [(k, p)]) == ResponseMap(responses)[k := p]
  {
    assert (responses + [(k, p)])[..|responses|] == responses;
  }

  /** One more entry written back, of a key that was not yet. */
  lemma WriteOneMore(responses: seq<(Key, Pointer)>, done: set<Key>, changes: map<Key, Record>, now: nat,
                     logs0: Logs, logs: Logs, logs': Logs, k: Key, p: Pointer, g: nat)
    requires WrittenBack(responses, done, changes, now, logs0, logs) && OnlyWritten(responses, changes, now, logs0, logs)
    requires k in changes && k !in done && changes[k].key == k && p.fileId !in logs0 && p.fileId in logs
    requires OneMoreOrNew(logs, logs', p.fileId, Preserving(changes[k], now), g) && Stores(logs', p, Preserving(changes[k], now))
    ensures WrittenBack(responses + [(k, p)], done + {k}, changes, now, logs0, logs')
    ensures OnlyWritten(responses + [(k, p)], changes, now, logs0, logs')
  {
    OneMoreMeans(logs, logs', p.fileId, Preserving(changes[k], now), g);
    assert Extends(logs, logs');
    assert k !in ResponseMap(responses);
    hide Extends, Stores, OneMoreOrNew, WrittenBack, OnlyWritten, ResponseMap, Preserving;
    StoredOneMore(responses, done, changes, now, logs0, logs, logs', k, p);
    OnlyOneMore(responses, changes, now, logs0, logs, logs', k, p);
  }

  lemma StoredOneMore(responses: seq<(Key, Pointer)>, done: set<Key>, changes: map<Key, Record>, now: nat,
                      logs0: Logs, logs: Logs, logs': Logs, k: Key, p: Pointer)
    requires WrittenBack(responses, done, changes, now, logs0, logs) && Extends(logs, logs')
    requires k in changes && p.fileId !in logs0 && Stores(logs', p, Preserving(changes[k], now))
    ensures WrittenBack(responses + [(k, p)], done + {k}, changes, now, logs0, logs')
  {
    ResponsesPush(responses, k, p);
    hide Extends, Stores, ResponseMap, Preserving;
    forall j | j in done ensures Stores(logs', ResponseMap(responses)[j], Preserving(changes[j], now)) {
      ExtensionKeepsStored(logs, logs', ResponseMap(responses)[j], Preserving(changes[j], now));
    }
  }

  lemma OnlyOneMore(responses: seq<(Key, Pointer)>, changes: map<Key, Record>, now: nat,
                    logs0: Logs, logs: Logs, logs': Logs, k: Key, p: Pointer)
    requires OnlyWritten(responses, changes, now, logs0, logs) && k !in ResponseMap(responses)
    requires k in changes && changes[k].key == k && p.fileId in logs
    requires forall f <- logs' :: f in logs && f != p.fileId ==> logs'[f] == logs[f]
    requires forall f <- logs' :: f !in logs ==> logs'[f] == []
    requires p.fileId in logs' && logs'[p.fileId] == logs[p.fileId] + [Preserving(changes[k], now)]
    ensures OnlyWritten(responses + [(k, p)], changes, now, logs0, logs')
  {
    ResponsesPush(responses, k, p);
    assert Preserving(changes[k], now).key == k;
    hide ResponseMap, Preserving;
    forall f, e | f in logs' && f !in logs0 && e in logs'[f] ensures WrittenTo(responses + [(k, p)], changes, now, f, e) {
      if f in logs && e in logs[f] {
        assert WrittenTo(responses, changes, now, f, e);
      }
    }
  }

  // ----- key directory -----

  class KeyDirectory {
    var entryByKey: map<Key, Pointer>

    constructor ()
      ensures entryByKey == map[]
    {
      entryByKey := map[];
    }

    method Put(key: Key, value: Pointer)
      modifies this
      ensures entryByKey == old(entryByKey)[key := value]
    {
      entryByKey := entryByKey[key := value];
    }

    method Delete(key: Key)
      modifies this
      ensures entryByKey == old(entryByKey) - {key}
    {
      entryByKey := entryByKey - {key};
    }

    method BulkUpdate(changes: seq<(Key, Pointer)>)
      modifies this
      ensures entryByKey == old(entryByKey) + ResponseMap(changes)
    {
      assert changes[..0] == [];
      for i := 0 to |changes|
        invariant entryByKey == old(entryByKey) + ResponseMap(changes[..i])
      {
        assert changes[..i + 1][..i] == changes[..i];
        entryByKey := entryByKey[changes[i].0 := changes[i].1];
      }
      assert changes[..|changes|] == changes;
    }
  }

  // ----- the store -----

  /** No key points to a file that is still to come. */
  ghost predicate PointsBack(directory: map<Key, Pointer>, lastId: nat)
  {
    forall k <- directory :: directory[k].fileId <= lastId
  }

  lemma PointsBackTogether(a: map<Key, Pointer>, b: map<Key, Pointer>, lastId: nat, lastId': nat)
    requires PointsBack(a, lastId) && PointsBack(b, lastId') && lastId <= lastId'
    ensures PointsBack(a + b, lastId')
  {}

  /** Files that are new bring none back that a key was left pointing into. */
  lemma NewIsNotRevived(directory: map<Key, Pointer>, lastId: nat, logs: Logs, logs': Logs)
    requires PointsBack(directory, lastId) && NewSince(lastId, logs, logs')
    ensures NoneRevived(logs, logs', directory)
  {}

  class Store {
    const segments: Segments
    const directory: KeyDirectory
    const config: MergeConfig
    var counter: nat

    ghost predicate Valid()
      reads this, segments, directory
    {
      segments.Valid() && Pointed(segments.logs, directory.entryByKey) && PointsBack(directory.entryByKey, segments.lastId)
    }

    ghost function OnDisk(): Disk
      reads this, segments, directory
    {
      Disk(segments.logs, directory.entryByKey, segments.active.fileId, counter)
    }

    constructor (maxSize: nat, config: MergeConfig)
      ensures Valid() && fresh(segments) && fresh(directory)
      ensures this.config == config && segments.maxSize == maxSize
      ensures OnDisk() == Disk(map[segments.active.fileId := []], map[], segments.active.fileId, 0)
    {
      segments := new Segments(maxSize);
      directory := new KeyDirectory();
      this.config := config;
      counter := 0;
    }

    /** Looks a key up in the directory and reads the entry it points to. */
    method Get(key: Key) returns (r: Option<Value>)
      requires Valid()
      ensures r == Lookup(Contents(OnDisk()), key)
    {
      FilesAre(segments.files, segments.logs);
      if key !in directory.entryByKey {
        return None;
      }
      hide Pointed, Coherent, ReadAt, ContentsOf, FilesOf, Stores, Holds;
      var p := directory.entryByKey[key];
      PointedIsRead(segments.files, segments.logs, directory.entryByKey, key);
      var entry := segments.Read(p.fileId, p.offset, p.length);
      if entry.None? {
        if p.fileId in segments.logs {
          ghost var e := HeldIsStored(segments.logs, key, Contents(OnDisk())[key], p);
        }
        return None;
      }
      ghost var e := HeldIsStored(segments.logs, key, Contents(OnDisk())[key], p);
      return Some(entry.value.value);
    }

    /** Appends a tombstone and forgets the key. */
    method Delete(key: Key, now: nat)
      requires Valid() && Fits(Record(key, [], true, 0))
      modifies segments, directory
      ensures Valid() && StepTo(old(OnDisk()), DeleteOp(key), now, segments.maxSize, config, OnDisk())
      ensures Contents(OnDisk()) == Contents(old(OnDisk())) - {key}
    {
      hide AppendsTo, StepTo, Coherent, Pointed, Contents, NewSince, Fits, Stamp;
      ghost var d, files, lastId := OnDisk(), segments.files, segments.lastId;
      CoherentKeys(files, d.logs);
      var p := segments.Append(key, [], true, now);
      directory.Delete(key);
      DeleteIsAStep(files, lastId, d, key, now, segments.maxSize, config, OnDisk(), p);
    }

    /** The append and the directory update of a put. */
    method AppendPut(key: Key, value: Value, now: nat) returns (ghost p: Pointer)
      requires Valid() && Fits(Record(key, value, false, 0))
      modifies segments, directory
      ensures Valid() && Appends(old(OnDisk()), Record(key, value, false, Stamp(now)), segments.maxSize, OnDisk(), p)
      ensures directory.entryByKey == old(directory.entryByKey)[key := p]
      ensures Contents(OnDisk()) == Contents(old(OnDisk()))[key := value]
    {
      hide AppendsTo, Appends, Coherent, Pointed, Contents, NewSince, Fits, Stamp;
      ghost var d, files, lastId := OnDisk(), segments.files, segments.lastId;
      CoherentKeys(files, d.logs);
      var place := segments.Append(key, value, false, now);
      p := place;
      directory.Put(key, place);
      CoherentKeys(segments.files, segments.logs);
      AppendIsAPut(files, lastId, d, key, value, now, segments.maxSize, OnDisk(), p);
    }

    /** Folds the entries of the segments read into a merged state. */
    method Fold(contents: seq<seq<MappedEntry>>, ghost visited: seq<seq<Record>>) returns (values: map<Key, Record>)
      requires |contents| == |visited| > 0
      requires forall i :: 0 <= i < |contents| ==> Entries(contents[i]) == visited[i]
      ensures values == MergeAll(visited).values
    {
      var merged := new MergedState();
      merged.TakeAll(contents[0]);
      assert visited[..1] == [visited[0]];
      for i := 1 to |contents|
        invariant merged.State() == MergeAll(visited[..i])
      {
        merged.MergeWith(contents[i]);
        assert visited[..i + 1][..i] == visited[..i];
      }
      assert visited[..|visited|] == visited;
      values := merged.valueByKey;
    }

    /** Writes the merged entries back, redirects their keys and removes the merged files. */
    method WriteBack(ids: seq<nat>, changes: map<Key, Record>, now: nat)
      requires Valid() && Ids(ids) <= segments.inactive.Keys && Ids(ids) <= segments.logs.Keys
      requires changes == MergeAll(Visited(segments.logs, ids)).values
      requires forall k <- changes :: Fits(changes[k]) && changes[k].key == k
      modifies segments, directory
      ensures Valid()
      ensures exists logs, responses :: Replaces(old(OnDisk()), ids, now, logs, responses, OnDisk())
      ensures Contents(OnDisk()) == Outside(Contents(old(OnDisk())), old(directory.entryByKey), Ids(ids)) + ValuesOf(MergeAll(Visited(old(segments.logs), ids)))
    {
      hide Coherent, Pointed, Contents, NewSince, Fits, Stamp, Ids, WrittenBack, OnlyWritten, MergeAll, Visited, Replaces, ResponseMap, Outside, ValuesOf, PointsBack;
      ghost var d, files, lastId := OnDisk(), segments.files, segments.lastId;
      CoherentKeys(files, d.logs);
      var responses := segments.WriteBack(changes, now);
      ghost var logs := segments.logs;
      CoherentKeys(segments.files, logs);
      WrittenPointsBack(responses, changes, now, d.logs, logs, segments.files, segments.lastId);
      PointsBackTogether(d.directory, ResponseMap(responses), lastId, segments.lastId);
      directory.BulkUpdate(responses);
      segments.Remove(ids);
      WriteBackIsAStep(files, lastId, d, ids, now, logs, responses, OnDisk());
    }

    /** How many inactive segments a merge reads. */
    function SegmentsToRead(): nat
      reads this, segments
    {
      config.ToRead(Count(segments.inactive))
    }

    /** Reads inactive segments and, if there are at least two, replaces them by their merged entries. */
    method BeginMerge(now: nat) returns (ghost ids: seq<nat>)
      requires Valid()
      modifies segments, directory
      ensures Valid() && Merges(old(OnDisk()), ids, now, config, OnDisk())
      ensures Ids(ids) <= old(segments.logs).Keys
      ensures Contents(OnDisk()) ==
        if |ids| < 2 then Contents(old(OnDisk()))
        else Outside(Contents(old(OnDisk())), old(directory.entryByKey), Ids(ids)) + ValuesOf(MergeAll(Visited(old(segments.logs), ids)))
    {
      hide Coherent, Pointed, Contents, Fits, Ids, MappedLog, Count, MergeAll, Replaces, Visited;
      ghost var d := OnDisk();
      CoherentKeys(segments.files, segments.logs);
      InactiveCount(segments.inactive, segments.active.fileId, segments.logs);
      var contents, found;
      found, contents := segments.ReadInactive(SegmentsToRead());
      ids := found;
      if |contents| >= 2 {
        ghost var visited := Visited(segments.logs, found);
        VisitedAre(segments.logs, found, contents);
        var values := Fold(contents, visited);
        MergedFits(segments.files, segments.logs, found);
        WriteBack(found, values, now);
      }
    }

    /** Writes a value under a key, after a merge if enough writes have passed. */
    method Put(key: Key, value: Value, now: nat)
      requires Valid() && Fits(Record(key, value, false, 0))
      modifies this`counter, segments, directory
      ensures Valid() && StepTo(old(OnDisk()), PutOp(key, value), now, segments.maxSize, config, OnDisk())
      ensures QuietAt(old(OnDisk()), PutOp(key, value), config) ==> Contents(OnDisk()) == Contents(old(OnDisk()))[key := value]
      ensures forall stamps ::
        && Tracked(old(segments.logs), old(directory.entryByKey), stamps) && Later(stamps, key, Stamp(now))
        && (RunsMerge(old(OnDisk()), PutOp(key, value), config) ==> MergeIsSettled(old(OnDisk()), config))
        ==> Tracked(segments.logs, directory.entryByKey, stamps[key := Stamp(now)])
            && Contents(OnDisk()) == Contents(old(OnDisk()))[key := value]
    {
      hide Coherent, Pointed, Contents, Fits, Stamp, Appends, Merges, MergeAll, Visited, Outside, Tracked, QuietAt, MergeIsSettled, Later, RunsMerge;
      ghost var d := OnDisk();
      ValidIsOk(this);
      ghost var ids: seq<nat> := [];
      if counter >= config.runMergeEvery {
        ids := BeginMerge(now);
        counter := 0;
      }
      ghost var mid := OnDisk().(counter := d.counter);
      ghost var p := AppendPut(key, value, now);
      counter := counter + 1;
      OtherCounters(mid, Record(key, value, false, Stamp(now)), segments.maxSize, OnDisk(), p);
      assert PutStep(d, key, value, now, segments.maxSize, config, mid, ids, p, OnDisk());
      hide PutStep, StepTo, DiskOk;
      PutActs(d, key, value, now, segments.maxSize, config, OnDisk());
    }
  }

  lemma PutActs(d: Disk, k: Key, v: Value, now: nat, maxSize: nat, config: MergeConfig, d': Disk)
    requires DiskOk(d) && Fits(Record(k, v, false, 0)) && StepTo(d, PutOp(k, v), now, maxSize, config, d')
    ensures QuietAt(d, PutOp(k, v), config) ==> Contents(d') == Contents(d)[k := v]
    ensures forall stamps ::
      && Tracked(d.logs, d.directory, stamps) && Later(stamps, k, Stamp(now))
      && (RunsMerge(d, PutOp(k, v), config) ==> MergeIsSettled(d, config))
      ==> Tracked(d'.logs, d'.directory, stamps[k := Stamp(now)]) && Contents(d') == Contents(d)[k := v]
  {
    hide DiskOk, Tracked, Later, MergeIsSettled, StepTo, Contents, RunsMerge, Stamp, Fits;
    if QuietAt(d, PutOp(k, v), config) {
      QuietStep(d, PutOp(k, v), now, maxSize, config, d');
    }
    forall stamps |
      && Tracked(d.logs, d.directory, stamps) && Later(stamps, k, Stamp(now))
      && (RunsMerge(d, PutOp(k, v), config) ==> MergeIsSettled(d, config))
      ensures Tracked(d'.logs, d'.directory, stamps[k := Stamp(now)]) && Contents(d') == Contents(d)[k := v]
    {
      TrackedStep(d, PutOp(k, v), now, maxSize, config, d', stamps);
    }
  }

  /** Appending does not look at the number of writes. */
  lemma OtherCounters(d: Disk, r: Record, maxSize: nat, d': Disk, p: Pointer)
    requires exists c: nat, c': nat :: Appends(d.(counter := c), r, maxSize, d'.(counter := c'), p)
    ensures Appends(d, r, maxSize, d', p)
  {}

  lemma DeleteIsAStep(files: Files, lastId: nat, d: Disk, k: Key, now: nat, maxSize: nat, config: MergeConfig, d': Disk, p: Pointer)
    requires Coherent(files, d.logs) && Pointed(d.logs, d.directory) && d.active in d.logs
    requires PointsBack(d.directory, lastId) && NewSince(lastId, d.logs, d'.logs) && Fits(Record(k, [], true, 0))
    requires AppendsTo(d.logs, d.active, Record(k, [], true, Stamp(now)), maxSize, d'.logs, d'.active, p)
    requires d'.directory == d.directory - {k} && d'.counter == d.counter
    ensures Pointed(d'.logs, d'.directory) && StepTo(d, DeleteOp(k), now, maxSize, config, d')
    ensures Contents(d') == Contents(d) - {k}
  {
    NewIsNotRevived(d.directory, lastId, d.logs, d'.logs);
    CoherentFits(files, d.logs);
    assert Appends(d, Record(k, [], true, Stamp(now)), maxSize, d', p);
    assert DeleteStep(d, k, now, maxSize, p, d');
    hide Appends, Pointed, Fitting, Fits, Stamp, Contents;
    FitsAtAnyTime(k, [], true, now);
    AppendDeletes(d, k, Stamp(now), maxSize, d', p);
  }

  lemma CoherentFits(files: Files, logs: Logs)
    requires Coherent(files, logs)
    ensures Fitting(logs)
  {}

  lemma AppendIsAPut(files: Files, lastId: nat, d: Disk, k: Key, v: Value, now: nat, maxSize: nat, d': Disk, p: Pointer)
    requires Coherent(files, d.logs) && Pointed(d.logs, d.directory) && d.active in d.logs
    requires PointsBack(d.directory, lastId) && NewSince(lastId, d.logs, d'.logs) && Fits(Record(k, v, false, 0))
    requires AppendsTo(d.logs, d.active, Record(k, v, false, Stamp(now)), maxSize, d'.logs, d'.active, p)
    requires d'.directory == d.directory[k := p]
    ensures Pointed(d'.logs, d'.directory) && Appends(d, Record(k, v, false, Stamp(now)), maxSize, d', p)
    ensures p.fileId == d'.active && Contents(d') == Contents(d)[k := v]
  {
    NewIsNotRevived(d.directory, lastId, d.logs, d'.logs);
    CoherentFits(files, d.logs);
    assert Appends(d, Record(k, v, false, Stamp(now)), maxSize, d', p);
    hide Appends, Pointed, Fitting, Fits, Stamp, Contents;
    FitsAtAnyTime(k, v, false, now);
    AppendPuts(d, k, v, Stamp(now), maxSize, d', p);
  }

  /** Responses point to files that are there. */
  lemma WrittenPointsBack(responses: seq<(Key, Pointer)>, changes: map<Key, Record>, now: nat, logs0: Logs, logs: Logs, files: Files, lastId: nat)
    requires WrittenBack(responses, changes.Keys, changes, now, logs0, logs) && files.Keys == logs.Keys
    requires forall f <- files :: f <= lastId
    ensures PointsBack(ResponseMap(responses), lastId)
  {}

  lemma WriteBackIsAStep(files: Files, lastId: nat, d: Disk, ids: seq<nat>, now: nat, logs: Logs, responses: seq<(Key, Pointer)>, d': Disk)
    requires Coherent(files, d.logs) && Pointed(d.logs, d.directory) && d.active in d.logs && Ids(ids) <= d.logs.Keys - {d.active}
    requires PointsBack(d.directory, lastId) && NewSince(lastId, d.logs, logs)
    requires forall f <- d.logs :: f in logs && logs[f] == d.logs[f]
    requires var changes := MergeAll(Visited(d.logs, ids)).values;
      && WrittenBack(responses, changes.Keys, changes, now, d.logs, logs)
      && OnlyWritten(responses, changes, now, d.logs, logs)
    requires d' == Disk(logs - Ids(ids), d.directory + ResponseMap(responses), d.active, d.counter)
    ensures Pointed(d'.logs, d'.directory) && Replaces(d, ids, now, logs, responses, d')
    ensures Contents(d') == Outside(Contents(d), d.directory, Ids(ids)) + ValuesOf(MergeAll(Visited(d.logs, ids)))
  {
    NewIsNotRevived(d.directory, lastId, d.logs, logs);
    CoherentFits(files, d.logs);
    hide MergeAll, Visited, WrittenBack, OnlyWritten, ResponseMap, Pointed, Fitting, Contents, Outside;
    assert Replaces(d, ids, now, logs, responses, d');
    MergeOverlays(d, ids, now, logs, responses, d');
  }

  lemma InactiveCount(inactive: map<nat, Segment>, active: nat, logs: Logs)
    requires logs.Keys == inactive.Keys + {active} && active !in inactive
    ensures Count(inactive) == |logs| - 1 && inactive.Keys == logs.Keys - {active}
  {
    assert |logs| == |logs.Keys| && |inactive| == |inactive.Keys|;
  }

  lemma VisitedAre(logs: Logs, ids: seq<nat>, contents: seq<seq<MappedEntry>>)
    requires |contents| == |ids| && Ids(ids) <= logs.Keys
    requires forall i :: 0 <= i < |ids| ==> ids[i] in logs && contents[i] == MappedLog(logs[ids[i]])
    ensures |Visited(logs, ids)| == |ids| && forall i :: 0 <= i < |ids| ==> Entries(contents[i]) == Visited(logs, ids)[i]
  {
    forall i | 0 <= i < |ids| ensures Entries(contents[i]) == logs[ids[i]] {
      assert Entries(MappedLog(logs[ids[i]])) == logs[ids[i]];
    }
  }

  // ----- runs -----

  /** Runs operations one after the other. The disks the store goes through are a run in the sense of
      KvRuns, and its answers are theirs. */
  method Run(store: Store, ops: seq<Op>, clock: nat -> nat) returns (answers: seq<Option<Value>>, ghost trace: seq<Disk>)
    requires store.Valid() && forall i :: 0 <= i < |ops| ==> OpFits(ops[i])
    modifies store`counter, store.segments, store.directory
    ensures store.Valid() && IsRun(trace, ops, clock, store.segments.maxSize, store.config)
    ensures trace[0] == old(store.OnDisk()) && trace[|ops|] == store.OnDisk()
    ensures answers == AnswersIn(trace, ops)
  {
    hide Fits, Pointed, Coherent, Contents, StepTo, Segments.Valid;
    answers, trace := [], [store.OnDisk()];
    ValidIsOk(store);
    assert ops[..0] == [] && ops[..|ops|] == ops;
    for i := 0 to |ops|
      invariant store.Valid() && |trace| == i + 1 && trace[0] == old(store.OnDisk()) && trace[i] == store.OnDisk()
      invariant forall j :: 0 <= j < i ==> StepTo(trace[j], ops[j], clock(j), store.segments.maxSize, store.config, trace[j + 1])
      invariant answers == AnswersIn(trace, ops[..i])
    {
      assert ops[..i + 1][..i] == ops[..i];
      ghost var before := trace;
      match ops[i] {
        case PutOp(k, v) => store.Put(k, v, clock(i));
        case DeleteOp(k) => store.Delete(k, clock(i));
        case GetOp(k) =>
          var r := store.Get(k);
          answers := answers + [r];
          GetIsAStep(store.OnDisk(), k, clock(i), store.segments.maxSize, store.config);
      }
      trace := trace + [store.OnDisk()];
      AnswersOfPrefix(before, trace, ops[..i]);
    }
  }

  lemma GetIsAStep(d: Disk, k: Key, now: nat, maxSize: nat, config: MergeConfig)
    ensures StepTo(d, GetOp(k), now, maxSize, config, d)
  {}

  lemma ValidIsOk(store: Store)
    requires store.Valid()
    ensures DiskOk(store.OnDisk())
  {
    CoherentKeys(store.segments.files, store.segments.logs);
    CoherentFits(store.segments.files, store.segments.logs);
  }

  lemma {:induction false} AnswersOfPrefix(trace: seq<Disk>, trace': seq<Disk>, ops: seq<Op>)
    requires |ops| < |trace| && trace <= trace'
    ensures AnswersIn(trace, ops) == AnswersIn(trace', ops)
  {
    if ops != [] {
      AnswersOfPrefix(trace, trace', ops[..|ops| - 1]);
    }
  }

  lemma HeldIsStored(logs: Logs, k: Key, v: Value, p: Pointer) returns (e: Record)
    requires Holds(logs, k, v, p)
    ensures Stores(logs, p, e) && e.key == k && e.value == v
  {
    var i :| NamesPut(logs[p.fileId], p, k, v, i);
    e := logs[p.fileId][i];
    assert NamesRecord(logs[p.fileId], p, e, i);
  }
}
