/** Logs on disk and the places in them: what a pointer names, what a directory of pointers answers, and
    what appending, writing back and removing files do to that. Shared by crates/kv/src/segments.rs,
    key_directory.rs and kvstore.rs. */
module KvLog {
  import opened Basics
  import opened Bytes
  import opened KvEntry
  import opened KvMerge

  /** Where an entry is: its file, its offset there and its length. */
  datatype Pointer = Pointer(fileId: nat, offset: nat, length: nat)

  type Files = map<nat, seq<byte>>
  type Logs = map<nat, seq<Record>>

  // ----- files and the logs they hold -----

  ghost predicate Coherent(files: Files, logs: Logs)
  {
    && files.Keys == logs.Keys
    && forall f <- logs :: files[f] == EncodeAll(logs[f]) && AllFit(logs[f])
  }

  /** What reading at a pointer gives. */
  function ReadAt(files: Files, p: Pointer): Option<Record>
  {
    if p.fileId !in files || p.offset + p.length > |files[p.fileId]| then None else
    match Decode(files[p.fileId][p.offset..p.offset + p.length])
    case None => None
    case Some((r, _)) => Some(r)
  }

  ghost predicate Names(log: seq<Record>, p: Pointer, i: int)
  {
    0 <= i < |log| && p.offset == OffsetOf(log, i) && p.length == |Encode(log[i])|
  }

  ghost predicate NamesPut(log: seq<Record>, p: Pointer, k: Key, v: Value, i: int)
  {
    Names(log, p, i) && log[i].key == k && log[i].value == v && !log[i].deleted
  }

  /** An entry that puts this value under this key stands at this place. */
  ghost predicate Holds(logs: Logs, k: Key, v: Value, p: Pointer)
  {
    p.fileId in logs && exists i :: NamesPut(logs[p.fileId], p, k, v, i)
  }

  /** An entry that puts some value under this key stands at this place. */
  ghost predicate Live(logs: Logs, k: Key, p: Pointer)
  {
    exists v :: Holds(logs, k, v, p)
  }

  lemma NamedIsRead(files: Files, logs: Logs, p: Pointer, i: int)
    requires Coherent(files, logs) && p.fileId in logs && Names(logs[p.fileId], p, i)
    ensures ReadAt(files, p) == Some(logs[p.fileId][i])
  {
    hide EncodeAll, Encode, Decode;
    ReadBack(logs[p.fileId], i);
    assert files[p.fileId][p.offset..p.offset + p.length][0..] == files[p.fileId][p.offset..p.offset + p.length];
  }

  /** What a pointer holds is what reading at it gives. */
  lemma HeldIsRead(files: Files, logs: Logs, k: Key, v: Value, p: Pointer)
    requires Coherent(files, logs) && Holds(logs, k, v, p)
    ensures ReadAt(files, p).Some? && ReadAt(files, p).value.key == k && ReadAt(files, p).value.value == v
  {
    hide ReadAt, Coherent, Names;
    var i :| NamesPut(logs[p.fileId], p, k, v, i);
    NamedIsRead(files, logs, p, i);
  }

  ghost predicate NamesRecord(log: seq<Record>, p: Pointer, r: Record, i: int)
  {
    Names(log, p, i) && log[i] == r
  }

  /** This entry stands at this place. */
  ghost predicate Stores(logs: Logs, p: Pointer, r: Record)
  {
    p.fileId in logs && exists i :: NamesRecord(logs[p.fileId], p, r, i)
  }

  lemma StoredIsRead(files: Files, logs: Logs, p: Pointer, e: Record)
    requires Coherent(files, logs) && Stores(logs, p, e)
    ensures p.fileId in logs && ReadAt(files, p) == Some(e)
  {
    hide ReadAt, Coherent, Names;
    var i :| NamesRecord(logs[p.fileId], p, e, i);
    NamedIsRead(files, logs, p, i);
  }

  lemma StoredHolds(logs: Logs, p: Pointer, r: Record)
    requires Stores(logs, p, r) && !r.deleted
    ensures Holds(logs, r.key, r.value, p)
  {
    var i :| NamesRecord(logs[p.fileId], p, r, i);
    assert NamesPut(logs[p.fileId], p, r.key, r.value, i);
  }

  /** Every file is still there, with at least what it held. */
  ghost predicate Extends(logs: Logs, logs': Logs)
  {
    forall f <- logs :: f in logs' && logs[f] <= logs'[f]
  }

  /** Appending elsewhere or behind does not disturb what a pointer names. */
  lemma ExtensionKeepsNames(log: seq<Record>, log': seq<Record>, p: Pointer, i: int)
    requires log <= log' && Names(log, p, i)
    ensures Names(log', p, i) && log'[i] == log[i]
  {
    assert log'[..i] == log[..i];
  }

  lemma ExtensionKeepsHeld(logs: Logs, logs': Logs, k: Key, v: Value, p: Pointer)
    requires Extends(logs, logs') && Holds(logs, k, v, p)
    ensures Holds(logs', k, v, p)
  {
    hide Names;
    var i :| NamesPut(logs[p.fileId], p, k, v, i);
    ExtensionKeepsNames(logs[p.fileId], logs'[p.fileId], p, i);
    assert NamesPut(logs'[p.fileId], p, k, v, i);
  }

  lemma ExtensionKeepsStored(logs: Logs, logs': Logs, p: Pointer, r: Record)
    requires Extends(logs, logs') && Stores(logs, p, r)
    ensures Stores(logs', p, r)
  {
    hide Names;
    var i :| NamesRecord(logs[p.fileId], p, r, i);
    ExtensionKeepsNames(logs[p.fileId], logs'[p.fileId], p, i);
    assert NamesRecord(logs'[p.fileId], p, r, i);
  }

  lemma CoherentFile(files: Files, logs: Logs, f: nat)
    requires Coherent(files, logs) && f in logs
    ensures f in files && files[f] == EncodeAll(logs[f]) && AllFit(logs[f])
  {}

  lemma CoherentKeys(files: Files, logs: Logs)
    requires Coherent(files, logs)
    ensures files.Keys == logs.Keys
  {}

  lemma NewFile(files: Files, logs: Logs, id: nat)
    requires Coherent(files, logs) && id !in files
    ensures Coherent(files[id := []], logs[id := []])
    ensures Extends(logs, logs[id := []])
  {}

  lemma DropFile(files: Files, logs: Logs, f: nat)
    requires Coherent(files, logs)
    ensures Coherent(files - {f}, logs - {f})
  {}

  /** Writing an entry at the end of a file adds it to the log of that file. */
  lemma PushRecord(files: Files, logs: Logs, f: nat, r: Record)
    requires Coherent(files, logs) && f in logs && Fits(r)
    ensures Coherent(files[f := files[f] + Encode(r)], logs[f := logs[f] + [r]])
    ensures Names(logs[f] + [r], Pointer(f, |files[f]|, |Encode(r)|), |logs[f]|)
    ensures Extends(logs, logs[f := logs[f] + [r]])
  {
    EncodeAllPush(logs[f], r);
    assert (logs[f] + [r])[..|logs[f]|] == logs[f];
  }

  lemma HeldOutside(logs: Logs, ids: set<nat>, k: Key, v: Value, p: Pointer)
    requires Holds(logs, k, v, p) && p.fileId !in ids
    ensures Holds(logs - ids, k, v, p)
  {
    var i :| NamesPut(logs[p.fileId], p, k, v, i);
    assert NamesPut((logs - ids)[p.fileId], p, k, v, i);
  }

  lemma StoredOutside(logs: Logs, ids: set<nat>, p: Pointer, r: Record)
    requires Stores(logs, p, r) && p.fileId !in ids
    ensures Stores(logs - ids, p, r)
  {
    var i :| NamesRecord(logs[p.fileId], p, r, i);
    assert NamesRecord((logs - ids)[p.fileId], p, r, i);
  }

  // ----- what a directory answers -----

  /** The bytes that logs are kept as. */
  ghost function FilesOf(logs: Logs): Files { map f | f in logs :: EncodeAll(logs[f]) }

  lemma FilesAre(files: Files, logs: Logs)
    requires Coherent(files, logs)
    ensures files == FilesOf(logs)
  {}

  /** What getting each key answers. */
  ghost function ContentsOf(files: Files, directory: map<Key, Pointer>): map<Key, Value>
  {
    map k | k in directory && ReadAt(files, directory[k]).Some? :: ReadAt(files, directory[k]).value.value
  }

  /** Wherever the directory points, there is a put of the key, or the file is gone. */
  ghost predicate Pointed(logs: Logs, directory: map<Key, Pointer>)
  {
    forall k <- directory :: directory[k].fileId in logs ==> Live(logs, k, directory[k])
  }

  /** A key is answered exactly when its file is there, with what is put at its place. */
  lemma PointedIsRead(files: Files, logs: Logs, directory: map<Key, Pointer>, k: Key)
    requires Coherent(files, logs) && Pointed(logs, directory) && k in directory
    ensures k in ContentsOf(files, directory) <==> directory[k].fileId in logs
    ensures k in ContentsOf(files, directory) ==> Holds(logs, k, ContentsOf(files, directory)[k], directory[k])
  {
    CoherentKeys(files, logs);
    if directory[k].fileId in logs {
      hide Holds, Coherent, ReadAt;
      var v :| Holds(logs, k, v, directory[k]);
      HeldIsRead(files, logs, k, v, directory[k]);
    }
  }

  /** What a directory answers is settled by what its pointers hold. */
  lemma ContentsAre(files: Files, logs: Logs, directory: map<Key, Pointer>, contents: map<Key, Value>)
    requires Coherent(files, logs)
    requires forall k :: k in contents <==> k in directory && directory[k].fileId in logs
    requires forall k <- contents :: Holds(logs, k, contents[k], directory[k])
    ensures Pointed(logs, directory) && ContentsOf(files, directory) == contents
  {
    hide Holds, Coherent, ReadAt;
    forall k | k in directory ensures
      && (k in contents <==> ReadAt(files, directory[k]).Some?)
      && (k in contents ==> ReadAt(files, directory[k]).value.value == contents[k])
    {
      if k in contents {
        HeldIsRead(files, logs, k, contents[k], directory[k]);
      } else {
        GoneIsUnread(files, logs, directory[k]);
      }
    }
  }

  lemma GoneIsUnread(files: Files, logs: Logs, p: Pointer)
    requires Coherent(files, logs) && p.fileId !in logs
    ensures ReadAt(files, p).None?
  {}

  /** No file has come back under the id of one that a key was left pointing into. */
  ghost predicate NoneRevived(logs: Logs, logs': Logs, directory: map<Key, Pointer>)
  {
    forall k <- directory :: directory[k].fileId in logs' ==> directory[k].fileId in logs
  }

  /** Appending keeps what every pointer holds. */
  lemma KeptContents(files: Files, logs: Logs, logs': Logs, directory: map<Key, Pointer>, k: Key)
    requires Coherent(files, logs) && Extends(logs, logs') && Pointed(logs, directory)
    requires k in ContentsOf(files, directory)
    ensures directory[k].fileId in logs && Holds(logs', k, ContentsOf(files, directory)[k], directory[k])
  {
    PointedIsRead(files, logs, directory, k);
    ExtensionKeepsHeld(logs, logs', k, ContentsOf(files, directory)[k], directory[k]);
  }

  /** A put and a delete on a plain map are what they are on the store. */
  lemma PutContents(files: Files, logs: Logs, files': Files, logs': Logs, directory: map<Key, Pointer>, k: Key, v: Value, p: Pointer)
    requires Coherent(files, logs) && Coherent(files', logs') && Extends(logs, logs') && Pointed(logs, directory)
    requires NoneRevived(logs, logs', directory) && Holds(logs', k, v, p)
    ensures Pointed(logs', directory[k := p])
    ensures ContentsOf(files', directory[k := p]) == ContentsOf(files, directory)[k := v]
  {
    hide Holds, Coherent, Pointed, ContentsOf;
    var contents := ContentsOf(files, directory)[k := v];
    forall j | j in directory ensures j in ContentsOf(files, directory) <==> directory[j].fileId in logs' {
      PointedIsRead(files, logs, directory, j);
    }
    AnsweredKeys(files, directory);
    HeldThere(logs', k, v, p);
    forall j | j in contents ensures Holds(logs', j, contents[j], directory[k := p][j]) {
      if j != k {
        KeptContents(files, logs, logs', directory, j);
      }
    }
    ContentsAre(files', logs', directory[k := p], contents);
  }

  lemma HeldThere(logs: Logs, k: Key, v: Value, p: Pointer)
    requires Holds(logs, k, v, p)
    ensures p.fileId in logs
  {}

  lemma AnsweredKeys(files: Files, directory: map<Key, Pointer>)
    ensures ContentsOf(files, directory).Keys <= directory.Keys
  {}

  lemma DeleteContents(files: Files, logs: Logs, files': Files, logs': Logs, directory: map<Key, Pointer>, k: Key)
    requires Coherent(files, logs) && Coherent(files', logs') && Extends(logs, logs') && Pointed(logs, directory)
    requires NoneRevived(logs, logs', directory)
    ensures Pointed(logs', directory - {k})
    ensures ContentsOf(files', directory - {k}) == ContentsOf(files, directory) - {k}
  {
    hide Holds, Coherent, Pointed, ContentsOf;
    var contents := ContentsOf(files, directory) - {k};
    forall j | j in directory ensures j in ContentsOf(files, directory) <==> directory[j].fileId in logs' {
      PointedIsRead(files, logs, directory, j);
    }
    AnsweredKeys(files, directory);
    forall j | j in contents ensures Holds(logs', j, contents[j], (directory - {k})[j]) {
      KeptContents(files, logs, logs', directory, j);
    }
    ContentsAre(files', logs', directory - {k}, contents);
  }

  // ----- writing merged entries back -----

  /** A clock reading as the 32 bits an entry keeps of it. */
  function Stamp(now: nat): nat { now % Pow256(4) }

  lemma StampIs(now: nat)
    ensures Stamp(now) == now % 0x1_0000_0000
  {
    Widths();
  }

  lemma FitsAtAnyTime(key: Key, value: Value, deleted: bool, now: nat)
    requires Fits(Record(key, value, deleted, 0))
    ensures Fits(Record(key, value, deleted, Stamp(now)))
  {}

  /** An entry that keeps the timestamp of another, or gets the current one if that has none. */
  function Preserving(r: Record, now: nat): (kept: Record)
    ensures kept.key == r.key && kept.value == r.value && !kept.deleted
    ensures kept.timestamp == if r.timestamp == 0 then now % 0x1_0000_0000 else r.timestamp
  {
    StampIs(now);
    Record(r.key, r.value, false, if r.timestamp == 0 then Stamp(now) else r.timestamp)
  }

  lemma PreservingFits(r: Record, now: nat)
    requires Fits(r)
    ensures Fits(Preserving(r, now))
  {}

  function ResponseMap(responses: seq<(Key, Pointer)>): map<Key, Pointer>
  {
    if responses == [] then map[] else
      var last := responses[|responses| - 1];
      ResponseMap(responses[..|responses| - 1])[last.0 := last.1]
  }

  /** Each of the keys has a response, which points to its entry, with the timestamp it had, in a file
      that is new. */
  ghost predicate WrittenBack(responses: seq<(Key, Pointer)>, done: set<Key>, changes: map<Key, Record>, now: nat, logs0: Logs, logs: Logs)
  {
    && ResponseMap(responses).Keys == done <= changes.Keys
    && forall k <- done ::
         && ResponseMap(responses)[k].fileId !in logs0
         && Stores(logs, ResponseMap(responses)[k], Preserving(changes[k], now))
  }

  /** New files hold nothing else: every entry in them is one that was written back, where its response says. */
  ghost predicate OnlyWritten(responses: seq<(Key, Pointer)>, changes: map<Key, Record>, now: nat, logs0: Logs, logs: Logs)
  {
    forall f <- logs :: f !in logs0 ==> forall e <- logs[f] :: WrittenTo(responses, changes, now, f, e)
  }

  ghost predicate WrittenTo(responses: seq<(Key, Pointer)>, changes: map<Key, Record>, now: nat, f: nat, e: Record)
  {
    && e.key in changes && e == Preserving(changes[e.key], now)
    && e.key in ResponseMap(responses) && ResponseMap(responses)[e.key].fileId == f
  }

  ghost function Ids(ids: seq<nat>): set<nat> { set f | f in ids }

  lemma NoIds()
    ensures Ids([]) == {}
  {}

  lemma InIds(ids: seq<nat>, i: nat)
    requires i < |ids|
    ensures ids[i] in Ids(ids)
  {}

  lemma IdsPush(ids: seq<nat>, f: nat)
    ensures Ids(ids + [f]) == Ids(ids) + {f}
  {}

  lemma WrittenHolds(responses: seq<(Key, Pointer)>, changes: map<Key, Record>, now: nat, logs: Logs, logs': Logs, k: Key)
    requires WrittenBack(responses, changes.Keys, changes, now, logs, logs') && k in changes && changes[k].key == k
    ensures k in ResponseMap(responses) && ResponseMap(responses)[k].fileId !in logs
    ensures ResponseMap(responses)[k].fileId in logs' && Holds(logs', k, changes[k].value, ResponseMap(responses)[k])
  {
    StoredHolds(logs', ResponseMap(responses)[k], Preserving(changes[k], now));
  }

  /** The keys whose files are not among these. */
  ghost function Outside(contents: map<Key, Value>, directory: map<Key, Pointer>, ids: set<nat>): map<Key, Value>
  {
    map k | k in contents && k in directory && directory[k].fileId !in ids :: contents[k]
  }

  /** Writing changes to new files, redirecting their keys there and removing old files: the changed keys
      have the changed values, the others keep theirs, except that a key that is left pointing into a
      removed file is no longer answered. */
  lemma MergedContents(files: Files, logs: Logs, directory: map<Key, Pointer>, logs': Logs, files': Files,
                       responses: seq<(Key, Pointer)>, changes: map<Key, Record>, now: nat, ids: set<nat>)
    requires Coherent(files, logs) && Coherent(files', logs' - ids) && Pointed(logs, directory)
    requires Extends(logs, logs') && NoneRevived(logs, logs', directory) && ids <= logs.Keys
    requires WrittenBack(responses, changes.Keys, changes, now, logs, logs') && forall k <- changes :: changes[k].key == k
    ensures Pointed(logs' - ids, directory + ResponseMap(responses))
    ensures ContentsOf(files', directory + ResponseMap(responses))
         == Outside(ContentsOf(files, directory), directory, ids) + map k | k in changes :: changes[k].value
  {
    assert ResponseMap(responses).Keys == changes.Keys;
    hide Holds, Coherent, Pointed, ContentsOf, ResponseMap, WrittenBack, Extends;
    var directory' := directory + ResponseMap(responses);
    var contents := Outside(ContentsOf(files, directory), directory, ids) + map k | k in changes :: changes[k].value;
    AnsweredKeys(files, directory);
    forall k | k in directory' ensures
      && (k in contents <==> directory'[k].fileId in logs' - ids)
      && (k in contents ==> Holds(logs' - ids, k, contents[k], directory'[k]))
    {
      if k in changes {
        WrittenHolds(responses, changes, now, logs, logs', k);
        HeldOutside(logs', ids, k, changes[k].value, ResponseMap(responses)[k]);
      } else {
        OthersKept(files, logs, directory, logs', ids, k);
      }
    }
    ContentsAre(files', logs' - ids, directory', contents);
  }

  lemma OthersKept(files: Files, logs: Logs, directory: map<Key, Pointer>, logs': Logs, ids: set<nat>, k: Key)
    requires Coherent(files, logs) && Pointed(logs, directory) && Extends(logs, logs') && NoneRevived(logs, logs', directory)
    requires k in directory
    ensures var others := Outside(ContentsOf(files, directory), directory, ids);
      && (k in others <==> directory[k].fileId in logs' - ids)
      && (k in others ==> Holds(logs' - ids, k, others[k], directory[k]))
  {
    hide Holds, Coherent, Pointed, ContentsOf;
    PointedIsRead(files, logs, directory, k);
    if k in ContentsOf(files, directory) && directory[k].fileId !in ids {
      KeptContents(files, logs, logs', directory, k);
      HeldOutside(logs', ids, k, ContentsOf(files, directory)[k], directory[k]);
    }
  }

  /** The logs of some files, in the order of a visit. */
  ghost function Visited(logs: Logs, ids: seq<nat>): seq<seq<Record>>
    requires Ids(ids) <= logs.Keys
  {
    seq(|ids|, i requires 0 <= i < |ids| => InIds(ids, i); logs[ids[i]])
  }

  /** All entries of some files. */
  ghost function SeenIn(logs: Logs, ids: set<nat>): set<Record>
    requires ids <= logs.Keys
  {
    set f, e | f in ids && e in logs[f] :: e
  }

  lemma SeenOfVisit(logs: Logs, ids: seq<nat>)
    requires Ids(ids) <= logs.Keys
    ensures Seen(Visited(logs, ids)) == SeenIn(logs, Ids(ids))
    ensures forall s <- Visited(logs, ids) :: exists f :: f in Ids(ids) && logs[f] == s
  {
    var visited := Visited(logs, ids);
    forall f | f in Ids(ids) ensures logs[f] in visited {
      var i :| 0 <= i < |ids| && ids[i] == f;
      assert visited[i] == logs[f];
    }
    forall s | s in visited ensures exists f :: f in Ids(ids) && logs[f] == s {
      var i :| 0 <= i < |visited| && visited[i] == s;
      InIds(ids, i);
    }
  }

  /** Merged entries are entries of the files, so they fit and stand under their keys. */
  lemma MergedFits(files: Files, logs: Logs, ids: seq<nat>)
    requires Coherent(files, logs) && Ids(ids) <= logs.Keys
    ensures forall k <- MergeAll(Visited(logs, ids)).values ::
      Fits(MergeAll(Visited(logs, ids)).values[k]) && MergeAll(Visited(logs, ids)).values[k].key == k
  {
    MergeAllIsSound(Visited(logs, ids));
    SeenOfVisit(logs, ids);
  }
}
