/** Runs of the key-value store of crates/kv/src/kvstore.rs: when a run, with rollovers and merges, answers
    as a plain map. */
module KvRuns {
  import opened Basics
  import opened Bytes
  import opened KvEntry
  import opened KvMerge
  import opened KvLog
  import opened KvDisk

  // ----- steps of a tracked store -----

  /** Whichever inactive segments a merge may read now, they are settled: the latest entry of every key in
      them is a put, and no newer one stands elsewhere. */
  ghost predicate MergeIsSettled(d: Disk, config: MergeConfig)
  {
    forall ids: set<nat> ::
      ids <= d.logs.Keys - {d.active} && 2 <= |ids| == config.ToRead(|d.logs| - 1) ==> Settled(d, ids)
  }

  /** The operation runs a merge first. */
  predicate RunsMerge(d: Disk, op: Op, config: MergeConfig) { op.PutOp? && d.counter >= config.runMergeEvery }

  lemma TrackedMerges(d: Disk, ids: seq<nat>, now: nat, config: MergeConfig, d': Disk, stamps: map<Key, nat>)
    requires DiskOk(d) && Tracked(d.logs, d.directory, stamps) && Merges(d, ids, now, config, d') && MergeIsSettled(d, config)
    ensures DiskOk(d') && Tracked(d'.logs, d'.directory, stamps) && Contents(d') == Contents(d)
  {
    if |ids| >= 2 {
      hide DiskOk, Tracked, Replaces, Visited, MergeAll, Contents;
      assert Settled(d, Ids(ids));
      var logs, responses :| Replaces(d, ids, now, logs, responses, d');
      TrackedOverlays(d, ids, now, logs, responses, d', stamps);
      TrackedMerge(d, ids, now, logs, responses, d', stamps);
      SettledKeeps(d, ids, stamps);
    }
  }

  /** Exactly what a merge of a tracked store keeps: if the latest entry of no merged key is a tombstone,
      it changes no value if and only if latest merged entries carry the current values. */
  lemma TrackedMergeIsExact(d: Disk, ids: seq<nat>, now: nat, logs: Logs, responses: seq<(Key, Pointer)>, d': Disk, stamps: map<Key, nat>)
    requires DiskOk(d) && Tracked(d.logs, d.directory, stamps)
    requires Ids(ids) <= d.logs.Keys - {d.active} && Replaces(d, ids, now, logs, responses, d')
    requires NoneDeleted(SeenIn(d.logs, Ids(ids)))
    ensures Contents(d') == Contents(d) <==> Current(Contents(d), SeenIn(d.logs, Ids(ids)))
  {
    TrackedOverlays(d, ids, now, logs, responses, d', stamps);
    SeenOfVisit(d.logs, ids);
    SeenIsAmongAll(d.logs, Ids(ids));
    hide MergeAll, Visited, Replaces, Contents, DiskOk;
    forall s | s in Visited(d.logs, ids) ensures Ordered(s) {
      var f :| f in Ids(ids) && d.logs[f] == s;
    }
    KeptExactlyWhenCurrent(Contents(d), Visited(d.logs, ids));
  }

  /** A plain map after one operation. */
  ghost function NextMap(contents: map<Key, Value>, op: Op): map<Key, Value>
  {
    match op
    case PutOp(k, v) => contents[k := v]
    case DeleteOp(k) => contents - {k}
    case GetOp(_) => contents
  }

  function NextStamps(stamps: map<Key, nat>, op: Op, now: nat): map<Key, nat>
  {
    match op
    case PutOp(k, _) => stamps[k := Stamp(now)]
    case DeleteOp(k) => stamps[k := Stamp(now)]
    case GetOp(_) => stamps
  }

  /** A tracked store stays tracked and does as a plain map: a write comes later than all of its key, and
      a merge reads settled segments. */
  lemma TrackedStep(d: Disk, op: Op, now: nat, maxSize: nat, config: MergeConfig, d': Disk, stamps: map<Key, nat>)
    requires DiskOk(d) && Tracked(d.logs, d.directory, stamps) && OpFits(op) && StepTo(d, op, now, maxSize, config, d')
    requires !op.GetOp? ==> Later(stamps, op.key, Stamp(now))
    requires RunsMerge(d, op, config) ==> MergeIsSettled(d, config)
    ensures DiskOk(d') && Tracked(d'.logs, d'.directory, NextStamps(stamps, op, now))
    ensures Contents(d') == NextMap(Contents(d), op)
  {
    hide DiskOk, Tracked, Appends, Merges, Contents, Fits, Later, MergeIsSettled, Stamp;
    match op
    case PutOp(k, v) =>
      var mid, ids, p :| PutStep(d, k, v, now, maxSize, config, mid, ids, p, d');
      if RunsMerge(d, op, config) {
        TrackedMerges(d, ids, now, config, mid, stamps);
      }
      FitsAtAnyTime(k, v, false, now);
      AppendPuts(mid, k, v, Stamp(now), maxSize, d', p);
      TrackedAppend(mid, Record(k, v, false, Stamp(now)), maxSize, d', p, stamps);
    case DeleteOp(k) =>
      var p :| DeleteStep(d, k, now, maxSize, p, d');
      FitsAtAnyTime(k, [], true, now);
      AppendDeletes(d, k, Stamp(now), maxSize, d', p);
      TrackedAppend(d, Record(k, [], true, Stamp(now)), maxSize, d', p, stamps);
    case GetOp(_) =>
  }

  // ----- steps that merge nothing -----

  /** What decides when a store rolls over and merges: the writes since the last merge, the size of
      its active segment and the number of its inactive ones. */
  datatype Shape = Shape(counter: nat, size: nat, sealed: nat)
  {
    function Grown(maxSize: nat, n: nat): Shape
    {
      if size >= maxSize then Shape(counter, n, sealed + 1) else Shape(counter, size + n, sealed)
    }

    /** The shape after an operation, if it does not replace any segments. */
    function Next(op: Op, maxSize: nat, config: MergeConfig): Shape
    {
      match op
      case PutOp(k, v) => this.(counter := (if counter >= config.runMergeEvery then 0 else counter) + 1).Grown(maxSize, 13 + |k| + |v|)
      case DeleteOp(k) => Grown(maxSize, 13 + |k|)
      case GetOp(_) => this
    }

    /** The operation runs no merge, or one that finds fewer than two inactive segments. */
    predicate Quiet(op: Op, config: MergeConfig)
    {
      op.PutOp? && counter >= config.runMergeEvery ==> config.ToRead(sealed) < 2
    }
  }

  ghost function ShapeOf(d: Disk): Shape
    requires d.active in d.logs
  {
    Shape(d.counter, |EncodeAll(d.logs[d.active])|, |d.logs| - 1)
  }

  ghost predicate QuietAt(d: Disk, op: Op, config: MergeConfig) { d.active in d.logs && ShapeOf(d).Quiet(op, config) }

  lemma OneMoreFile(logs: Logs, f: nat, log: seq<Record>)
    ensures |logs[f := log]| == if f in logs then |logs| else |logs| + 1
  {
    var more := logs[f := log];
    assert more.Keys == logs.Keys + {f};
    assert |more| == |more.Keys| && |logs| == |logs.Keys|;
  }

  lemma AppendGrows(d: Disk, r: Record, maxSize: nat, d': Disk, p: Pointer)
    requires Appends(d, r, maxSize, d', p) && d'.counter == d.counter
    ensures ShapeOf(d') == ShapeOf(d).Grown(maxSize, 13 + |r.key| + |r.value|)
  {
    EncodedLength(r);
    EncodeAllPush(d.logs[d.active], r);
    EncodeAllPush([], r);
    assert [] + [r] == [r] && EncodeAll([]) == [];
    OneMoreFile(d.logs, d'.active, d'.logs[d'.active]);
    hide EncodeAll, Encode, Names;
  }

  /** A step that merges nothing does as a plain map, whatever the clock says. */
  lemma QuietStep(d: Disk, op: Op, now: nat, maxSize: nat, config: MergeConfig, d': Disk)
    requires DiskOk(d) && OpFits(op) && StepTo(d, op, now, maxSize, config, d') && ShapeOf(d).Quiet(op, config)
    ensures DiskOk(d') && Contents(d') == NextMap(Contents(d), op)
    ensures ShapeOf(d') == ShapeOf(d).Next(op, maxSize, config)
  {
    hide Pointed, Fitting, Appends, Contents, Fits, Stamp, EncodeAll;
    match op
    case PutOp(k, v) =>
      var mid, ids, p :| PutStep(d, k, v, now, maxSize, config, mid, ids, p, d');
      assert mid == d;
      FitsAtAnyTime(k, v, false, now);
      AppendPuts(d, k, v, Stamp(now), maxSize, d', p);
      AppendGrows(d.(counter := d'.counter), Record(k, v, false, Stamp(now)), maxSize, d', p) by { OtherCounter(d, Record(k, v, false, Stamp(now)), maxSize, d', p); }
    case DeleteOp(k) =>
      var p :| DeleteStep(d, k, now, maxSize, p, d');
      FitsAtAnyTime(k, [], true, now);
      AppendDeletes(d, k, Stamp(now), maxSize, d', p);
      AppendGrows(d, Record(k, [], true, Stamp(now)), maxSize, d', p);
    case GetOp(_) =>
  }

  lemma OtherCounter(d: Disk, r: Record, maxSize: nat, d': Disk, p: Pointer)
    requires Appends(d, r, maxSize, d', p)
    ensures Appends(d.(counter := d'.counter), r, maxSize, d', p)
  {}

  // ----- write-once steps -----

  /** Every entry stands in the one file that its key points to. */
  ghost predicate OneHome(d: Disk)
  {
    forall f <- d.logs :: forall e <- d.logs[f] :: e.key in d.directory && d.directory[e.key].fileId == f
  }

  lemma OneHomeIsSettled(d: Disk, config: MergeConfig, stamps: map<Key, nat>)
    requires OneHome(d) && Tracked(d.logs, d.directory, stamps)
    ensures MergeIsSettled(d, config)
  {
    forall ids: set<nat> | ids <= d.logs.Keys - {d.active} && 2 <= |ids| == config.ToRead(|d.logs| - 1) ensures Settled(d, ids) {
      assert SelfContained(d, ids);
      SelfContainedIsSettled(d, ids, stamps);
    }
  }

  lemma OneHomeMerge(d: Disk, ids: seq<nat>, now: nat, config: MergeConfig, d': Disk)
    requires OneHome(d) && Merges(d, ids, now, config, d')
    ensures OneHome(d') && d'.directory.Keys == d.directory.Keys
  {
    if |ids| >= 2 {
      var logs, responses :| Replaces(d, ids, now, logs, responses, d');
      var changes := MergeAll(Visited(d.logs, ids)).values;
      hide MergeAll, Visited, WrittenBack, OnlyWritten, NoneRevived, OneHome, ResponseMap;
      RedirectedKeys(d, ids, now, logs, responses, d');
      forall k | k in changes ensures k in d.directory {
        MergedIsHome(d, ids, k);
      }
      forall f, e | f in d'.logs && e in d'.logs[f] ensures e.key in d'.directory && d'.directory[e.key].fileId == f {
        StaysHome(d, ids, now, logs, responses, d', f, e);
      }
      HomeIf(d');
    }
  }

  lemma MergedIsHome(d: Disk, ids: seq<nat>, k: Key)
    requires OneHome(d) && Ids(ids) <= d.logs.Keys && k in MergeAll(Visited(d.logs, ids)).values
    ensures k in d.directory && d.directory[k].fileId in Ids(ids)
  {
    SeenOfVisit(d.logs, ids);
    MergeAllIsSound(Visited(d.logs, ids));
    hide MergeAll, Visited;
    assert MergeAll(Visited(d.logs, ids)).values[k] in SeenIn(d.logs, Ids(ids));
  }

  lemma StaysHome(d: Disk, ids: seq<nat>, now: nat, logs: Logs, responses: seq<(Key, Pointer)>, d': Disk, f: nat, e: Record)
    requires OneHome(d) && Ids(ids) <= d.logs.Keys && Replaces(d, ids, now, logs, responses, d')
    requires f in d'.logs && e in d'.logs[f]
    ensures e.key in d'.directory && d'.directory[e.key].fileId == f
  {
    hide MergeAll, Visited, OneHome, NoneRevived, ResponseMap, Stores, Preserving;
    var changes := MergeAll(Visited(d.logs, ids)).values;
    if f in d.logs {
      AtHome(d, f, e);
      if e.key in changes {
        MergedIsHome(d, ids, e.key);
      }
    } else {
      assert WrittenTo(responses, changes, now, f, e);
    }
  }

  lemma AtHome(d: Disk, f: nat, e: Record)
    requires OneHome(d) && f in d.logs && e in d.logs[f]
    ensures e.key in d.directory && d.directory[e.key].fileId == f
  {}

  lemma HomeIf(d: Disk)
    requires forall f, e :: f in d.logs && e in d.logs[f] ==> e.key in d.directory && d.directory[e.key].fileId == f
    ensures OneHome(d)
  {}

  lemma OneHomePut(d: Disk, k: Key, v: Value, now: nat, maxSize: nat, config: MergeConfig, d': Disk)
    requires OneHome(d) && k !in d.directory && StepTo(d, PutOp(k, v), now, maxSize, config, d')
    ensures OneHome(d') && d'.directory.Keys == d.directory.Keys + {k}
  {
    hide Merges, OneHome;
    var mid, ids, p :| PutStep(d, k, v, now, maxSize, config, mid, ids, p, d');
    if d.counter >= config.runMergeEvery {
      OneHomeMerge(d, ids, now, config, mid);
    }
    OneHomeAppend(mid, Record(k, v, false, Stamp(now)), maxSize, d', p);
  }

  lemma OneHomeAppend(d: Disk, r: Record, maxSize: nat, d': Disk, p: Pointer)
    requires OneHome(d) && r.key !in d.directory && Appends(d, r, maxSize, d', p) && d'.directory == d.directory[r.key := p]
    ensures OneHome(d')
  {
    hide EncodeAll, Names;
  }

  // ----- runs -----

  /** A run: the disks that a store goes through, one step for each operation. */
  ghost predicate IsRun(trace: seq<Disk>, ops: seq<Op>, clock: nat -> nat, maxSize: nat, config: MergeConfig)
  {
    && |trace| == |ops| + 1 && DiskOk(trace[0])
    && (forall i :: 0 <= i < |ops| ==> OpFits(ops[i]))
    && forall i :: 0 <= i < |ops| ==> StepTo(trace[i], ops[i], clock(i), maxSize, config, trace[i + 1])
  }

  /** A plain map after some operations. */
  ghost function After(contents: map<Key, Value>, ops: seq<Op>): map<Key, Value>
  {
    if ops == [] then contents else NextMap(After(contents, ops[..|ops| - 1]), ops[|ops| - 1])
  }

  function Lookup(contents: map<Key, Value>, k: Key): Option<Value>
  {
    if k in contents then Some(contents[k]) else None
  }

  /** What a plain map answers to the gets among some operations. */
  ghost function Answers(contents: map<Key, Value>, ops: seq<Op>): seq<Option<Value>>
  {
    if ops == [] then [] else
      var n := |ops| - 1;
      Answers(contents, ops[..n]) +
      match ops[n]
      case GetOp(k) => [Lookup(After(contents, ops[..n]), k)]
      case _ => []
  }

  /** What the disks of a run answer to them. */
  ghost function AnswersIn(trace: seq<Disk>, ops: seq<Op>): seq<Option<Value>>
    requires |trace| > |ops|
  {
    if ops == [] then [] else
      var n := |ops| - 1;
      AnswersIn(trace, ops[..n]) +
      match ops[n]
      case GetOp(k) => [Lookup(Contents(trace[n]), k)]
      case _ => []
  }

  /** The run does as a plain map: what every disk stands for, and all answers. */
  ghost predicate ActsAsMap(trace: seq<Disk>, ops: seq<Op>)
    requires |trace| == |ops| + 1
  {
    && (forall i :: 0 <= i <= |ops| ==> DiskOk(trace[i]) && Contents(trace[i]) == After(Contents(trace[0]), ops[..i]))
    && AnswersIn(trace, ops) == Answers(Contents(trace[0]), ops)
  }

  lemma {:induction false} AnswersAgree(trace: seq<Disk>, ops: seq<Op>, n: nat)
    requires n <= |ops| < |trace|
    requires forall i :: 0 <= i < n ==> Contents(trace[i]) == After(Contents(trace[0]), ops[..i])
    ensures AnswersIn(trace, ops[..n]) == Answers(Contents(trace[0]), ops[..n])
  {
    if n > 0 {
      AnswersAgree(trace, ops, n - 1);
      assert ops[..n][..n - 1] == ops[..n - 1];
      hide After, Contents;
    }
  }

  lemma AfterOneMore(contents: map<Key, Value>, ops: seq<Op>, i: nat)
    requires i < |ops|
    ensures After(contents, ops[..i + 1]) == NextMap(After(contents, ops[..i]), ops[i])
  {
    assert ops[..i + 1][..i] == ops[..i];
  }

  /** The stamps after some operations. */
  ghost function StampsAfter(stamps: map<Key, nat>, ops: seq<Op>, clock: nat -> nat): map<Key, nat>
  {
    if ops == [] then stamps else
      var n := |ops| - 1;
      NextStamps(StampsAfter(stamps, ops[..n], clock), ops[n], clock(n))
  }

  /** Every write of a key comes at a later second than the one before it. */
  ghost predicate Rising(stamps: map<Key, nat>, ops: seq<Op>, clock: nat -> nat)
  {
    forall i :: 0 <= i < |ops| && !ops[i].GetOp? ==> Later(StampsAfter(stamps, ops[..i], clock), ops[i].key, Stamp(clock(i)))
  }

  /** Every merge of the run reads settled segments. */
  ghost predicate MergesAreSettled(trace: seq<Disk>, ops: seq<Op>, config: MergeConfig)
    requires |trace| == |ops| + 1
  {
    forall i :: 0 <= i < |ops| && RunsMerge(trace[i], ops[i], config) ==> MergeIsSettled(trace[i], config)
  }

  lemma {:induction false} TrackedPrefix(trace: seq<Disk>, ops: seq<Op>, clock: nat -> nat, maxSize: nat, config: MergeConfig,
                                         stamps: map<Key, nat>, n: nat)
    requires IsRun(trace, ops, clock, maxSize, config) && Tracked(trace[0].logs, trace[0].directory, stamps)
    requires Rising(stamps, ops, clock) && n <= |ops|
    requires forall i :: 0 <= i < n && RunsMerge(trace[i], ops[i], config) ==> MergeIsSettled(trace[i], config)
    ensures DiskOk(trace[n]) && Tracked(trace[n].logs, trace[n].directory, StampsAfter(stamps, ops[..n], clock))
    ensures Contents(trace[n]) == After(Contents(trace[0]), ops[..n])
  {
    hide DiskOk, Tracked, Contents, StepTo, MergeIsSettled, OpFits, Later;
    if n == 0 {
      assert ops[..0] == [];
    } else {
      var i := n - 1;
      TrackedPrefix(trace, ops, clock, maxSize, config, stamps, i);
      assert ops[..n][..i] == ops[..i];
      AfterOneMore(Contents(trace[0]), ops, i);
      TrackedStep(trace[i], ops[i], clock(i), maxSize, config, trace[n], StampsAfter(stamps, ops[..i], clock));
    }
  }

  /** Over every run of a tracked store, with any number of rollovers and merges: if every write of a key
      comes at a later second than the one before it, and every merge reads segments that are settled,
      then all answers are those of a plain map. */
  lemma SettledRuns(trace: seq<Disk>, ops: seq<Op>, clock: nat -> nat, maxSize: nat, config: MergeConfig, stamps: map<Key, nat>)
    requires IsRun(trace, ops, clock, maxSize, config) && Tracked(trace[0].logs, trace[0].directory, stamps)
    requires Rising(stamps, ops, clock) && MergesAreSettled(trace, ops, config)
    ensures ActsAsMap(trace, ops)
  {
    assert |trace| == |ops| + 1;
    hide DiskOk, Tracked, Contents, IsRun, Rising, MergeIsSettled;
    forall n | 0 <= n <= |ops| ensures DiskOk(trace[n]) && Contents(trace[n]) == After(Contents(trace[0]), ops[..n]) {
      TrackedPrefix(trace, ops, clock, maxSize, config, stamps, n);
    }
    AnswersAgree(trace, ops, |ops|);
    assert ops[..|ops|] == ops;
  }

  /** No key is deleted, and none is put that is there already or twice. */
  ghost predicate WriteOnce(keys: set<Key>, ops: seq<Op>)
  {
    && (forall i :: 0 <= i < |ops| ==> !ops[i].DeleteOp?)
    && (forall i :: 0 <= i < |ops| && ops[i].PutOp? ==> ops[i].key !in keys)
    && (forall i, j :: 0 <= i < j < |ops| && ops[i].PutOp? && ops[j].PutOp? ==> ops[i].key != ops[j].key)
  }

  ghost function PutKeys(ops: seq<Op>): set<Key> { set op | op in ops && op.PutOp? :: op.key }

  lemma PutKeysPush(ops: seq<Op>, i: nat)
    requires i < |ops|
    ensures PutKeys(ops[..i + 1]) == PutKeys(ops[..i]) + if ops[i].PutOp? then {ops[i].key} else {}
  {
    assert ops[..i + 1] == ops[..i] + [ops[i]];
  }

  /** In such a run every entry stays at home and the store stays tracked. */
  lemma {:induction false} WriteOncePrefix(trace: seq<Disk>, ops: seq<Op>, clock: nat -> nat, maxSize: nat, config: MergeConfig,
                                           stamps: map<Key, nat>, n: nat)
    requires IsRun(trace, ops, clock, maxSize, config) && OneHome(trace[0]) && WriteOnce(trace[0].directory.Keys, ops)
    requires Tracked(trace[0].logs, trace[0].directory, stamps) && Rising(stamps, ops, clock) && n <= |ops|
    ensures OneHome(trace[n]) && trace[n].directory.Keys == trace[0].directory.Keys + PutKeys(ops[..n])
    ensures DiskOk(trace[n]) && Tracked(trace[n].logs, trace[n].directory, StampsAfter(stamps, ops[..n], clock))
  {
    hide DiskOk, OneHome, OpFits, Tracked, Later, MergeIsSettled, StepTo;
    if n == 0 {
      assert ops[..0] == [];
    } else {
      var i := n - 1;
      WriteOncePrefix(trace, ops, clock, maxSize, config, stamps, i);
      OneHomeIsSettled(trace[i], config, StampsAfter(stamps, ops[..i], clock));
      WriteOnceStep(trace[i], ops, i, clock, maxSize, config, trace[n], StampsAfter(stamps, ops[..i], clock), trace[0].directory.Keys);
      assert ops[..n][..i] == ops[..i];
    }
  }

  lemma WriteOnceStep(d: Disk, ops: seq<Op>, i: nat, clock: nat -> nat, maxSize: nat, config: MergeConfig, d': Disk,
                      stamps: map<Key, nat>, keys: set<Key>)
    requires i < |ops| && OpFits(ops[i]) && StepTo(d, ops[i], clock(i), maxSize, config, d') && WriteOnce(keys, ops)
    requires DiskOk(d) && OneHome(d) && Tracked(d.logs, d.directory, stamps) && MergeIsSettled(d, config)
    requires d.directory.Keys == keys + PutKeys(ops[..i])
    requires !ops[i].GetOp? ==> Later(stamps, ops[i].key, Stamp(clock(i)))
    ensures OneHome(d') && d'.directory.Keys == keys + PutKeys(ops[..i + 1])
    ensures DiskOk(d') && Tracked(d'.logs, d'.directory, NextStamps(stamps, ops[i], clock(i)))
  {
    hide DiskOk, OneHome, OpFits, Tracked, Later, MergeIsSettled, StepTo, PutKeys, Stamp, WriteOnce, Contents, NextStamps, NextMap;
    PutKeysPush(ops, i);
    NotPutBefore(keys, ops, i);
    GetKeeps(d, ops[i], clock(i), maxSize, config, d');
    TrackedStep(d, ops[i], clock(i), maxSize, config, d', stamps);
    if ops[i].PutOp? {
      OneHomePut(d, ops[i].key, ops[i].value, clock(i), maxSize, config, d');
    }
  }

  lemma GetKeeps(d: Disk, op: Op, now: nat, maxSize: nat, config: MergeConfig, d': Disk)
    requires StepTo(d, op, now, maxSize, config, d')
    ensures op.GetOp? ==> d' == d
  {}

  lemma NotPutBefore(keys: set<Key>, ops: seq<Op>, i: nat)
    requires i < |ops| && WriteOnce(keys, ops)
    ensures !ops[i].DeleteOp? && (ops[i].PutOp? ==> ops[i].key !in keys + PutKeys(ops[..i]))
  {}

  /** Runs that write every key once and delete none act as a plain map, whatever merges they run into,
      however many segments these replace and in whatever order they visit them. */
  lemma WriteOnceRuns(trace: seq<Disk>, ops: seq<Op>, clock: nat -> nat, maxSize: nat, config: MergeConfig, stamps: map<Key, nat>)
    requires IsRun(trace, ops, clock, maxSize, config) && Tracked(trace[0].logs, trace[0].directory, stamps)
    requires OneHome(trace[0]) && WriteOnce(trace[0].directory.Keys, ops) && Rising(stamps, ops, clock)
    ensures ActsAsMap(trace, ops)
  {
    assert |trace| == |ops| + 1;
    hide Tracked, IsRun, Rising, ActsAsMap, OneHome, MergeIsSettled, DiskOk;
    forall i | 0 <= i < |ops| && RunsMerge(trace[i], ops[i], config) ensures MergeIsSettled(trace[i], config) {
      WriteOncePrefix(trace, ops, clock, maxSize, config, stamps, i);
      OneHomeIsSettled(trace[i], config, StampsAfter(stamps, ops[..i], clock));
    }
    SettledRuns(trace, ops, clock, maxSize, config, stamps);
  }

  lemma RunStep(trace: seq<Disk>, ops: seq<Op>, clock: nat -> nat, maxSize: nat, config: MergeConfig, i: nat)
    requires IsRun(trace, ops, clock, maxSize, config) && i < |ops|
    ensures |trace| == |ops| + 1 && OpFits(ops[i]) && StepTo(trace[i], ops[i], clock(i), maxSize, config, trace[i + 1])
  {}

  /** So many writes since the last merge, so many inactive segments, and whether the active one is empty. */
  ghost predicate Stage(d: Disk, counter: nat, sealed: nat, empty: bool)
  {
    DiskOk(d) && d.counter == counter && ShapeOf(d).sealed == sealed && (ShapeOf(d).size == 0 <==> empty)
  }

  /** Where a put leaves a store with segments of one entry, short of a merge. */
  lemma PutSeals(d: Disk, op: Op, now: nat, config: MergeConfig, d': Disk, counter: nat, sealed: nat, empty: bool)
    requires Stage(d, counter, sealed, empty) && op.PutOp? && OpFits(op) && StepTo(d, op, now, 1, config, d')
    requires counter < config.runMergeEvery
    ensures Stage(d', counter + 1, if empty then sealed else sealed + 1, false)
  {
    hide Fitting, Pointed, StepTo, OpFits, EncodeAll;
    QuietStep(d, op, now, 1, config, d');
  }

  /** Such merges do happen: a new store with segments of one entry that merges after every third write
      has two segments to merge before its fourth. */
  lemma RealMerge(trace: seq<Disk>, ops: seq<Op>, clock: nat -> nat, totalSegments: nat, active: nat)
    requires |ops| == 4 && forall i :: 0 <= i < 4 ==> ops[i].PutOp?
    requires IsRun(trace, ops, clock, 1, MergeConfig(3, true, totalSegments))
    requires trace[0] == Disk(map[active := []], map[], active, 0)
    ensures RunsMerge(trace[3], ops[3], MergeConfig(3, true, totalSegments))
    ensures DiskOk(trace[3]) && MergeConfig(3, true, totalSegments).ToRead(ShapeOf(trace[3]).sealed) == 2
  {
    var config := MergeConfig(3, true, totalSegments);
    assert |trace| == 5;
    NewStage(active);
    ThreePuts(trace, ops, clock, config);
    hide IsRun, Fitting, Pointed, EncodeAll;
  }

  lemma NewStage(active: nat)
    ensures Stage(Disk(map[active := []], map[], active, 0), 0, 0, true)
  {}

  lemma ThreePuts(trace: seq<Disk>, ops: seq<Op>, clock: nat -> nat, config: MergeConfig)
    requires |ops| == 4 && (forall i :: 0 <= i < 4 ==> ops[i].PutOp?) && config.runMergeEvery == 3
    requires IsRun(trace, ops, clock, 1, config) && |trace| == 5 && Stage(trace[0], 0, 0, true)
    ensures Stage(trace[3], 3, 2, false)
  {
    hide *;
    RunStep(trace, ops, clock, 1, config, 0);
    PutSeals(trace[0], ops[0], clock(0), config, trace[1], 0, 0, true);
    RunStep(trace, ops, clock, 1, config, 1);
    PutSeals(trace[1], ops[1], clock(1), config, trace[2], 1, 0, false);
    RunStep(trace, ops, clock, 1, config, 2);
    PutSeals(trace[2], ops[2], clock(2), config, trace[3], 2, 1, false);
  }

  /** The shape of a store after some operations, none of which replaces any segments. */
  function ShapeAfter(shape: Shape, ops: seq<Op>, maxSize: nat, config: MergeConfig): Shape
  {
    if ops == [] then shape else
      ShapeAfter(shape, ops[..|ops| - 1], maxSize, config).Next(ops[|ops| - 1], maxSize, config)
  }

  /** Every merge of a run finds fewer than two inactive segments, as can be told beforehand. */
  predicate QuietRun(shape: Shape, ops: seq<Op>, maxSize: nat, config: MergeConfig)
  {
    forall i :: 0 <= i < |ops| ==> ShapeAfter(shape, ops[..i], maxSize, config).Quiet(ops[i], config)
  }

  lemma {:induction false} QuietPrefix(trace: seq<Disk>, ops: seq<Op>, clock: nat -> nat, maxSize: nat, config: MergeConfig, n: nat)
    requires IsRun(trace, ops, clock, maxSize, config) && QuietRun(ShapeOf(trace[0]), ops, maxSize, config) && n <= |ops|
    ensures DiskOk(trace[n]) && ShapeOf(trace[n]) == ShapeAfter(ShapeOf(trace[0]), ops[..n], maxSize, config)
    ensures Contents(trace[n]) == After(Contents(trace[0]), ops[..n])
  {
    hide Pointed, Fitting, Contents, StepTo, OpFits, ShapeOf;
    if n == 0 {
      assert ops[..0] == [];
    } else {
      var i := n - 1;
      QuietPrefix(trace, ops, clock, maxSize, config, i);
      assert ops[..n][..i] == ops[..i];
      AfterOneMore(Contents(trace[0]), ops, i);
      QuietStep(trace[i], ops[i], clock(i), maxSize, config, trace[n]);
    }
  }

  /** Over every run, with any number of rollovers, in which merges find fewer than two inactive segments,
      all answers are those of a plain map, whatever the clock says. */
  lemma QuietRuns(trace: seq<Disk>, ops: seq<Op>, clock: nat -> nat, maxSize: nat, config: MergeConfig)
    requires IsRun(trace, ops, clock, maxSize, config) && QuietRun(ShapeOf(trace[0]), ops, maxSize, config)
    ensures ActsAsMap(trace, ops)
  {
    hide Pointed, Fitting, Contents, StepTo, OpFits, ShapeOf, QuietRun;
    forall n | 0 <= n <= |ops| ensures DiskOk(trace[n]) && Contents(trace[n]) == After(Contents(trace[0]), ops[..n]) {
      QuietPrefix(trace, ops, clock, maxSize, config, n);
    }
    AnswersAgree(trace, ops, |ops|);
    assert ops[..|ops|] == ops;
  }

  /** A new store is tracked, and every entry is at home. */
  lemma NewIsTracked(active: nat)
    ensures var d := Disk(map[active := []], map[], active, 0);
      DiskOk(d) && Tracked(d.logs, d.directory, map[]) && OneHome(d) && Contents(d) == map[]
  {}

  // ----- rising stamps, in terms of the clock -----

  /** The operation is a write of the key. */
  predicate Writes(op: Op, k: Key) { !op.GetOp? && op.key == k }

  /** The clock reads a later second at every further write of a key. */
  ghost predicate ClockRises(ops: seq<Op>, clock: nat -> nat)
  {
    forall i, j :: 0 <= i < j < |ops| && !ops[i].GetOp? && Writes(ops[j], ops[i].key) ==> clock(i) < clock(j)
  }

  /** The clock is past its first second and has not run out of its 32 bits. */
  ghost predicate InEra(ops: seq<Op>, clock: nat -> nat)
  {
    forall i :: 0 <= i < |ops| && !ops[i].GetOp? ==> 0 < clock(i) < 0x1_0000_0000
  }

  lemma StampsPush(ops: seq<Op>, clock: nat -> nat, n: nat)
    requires n < |ops|
    ensures StampsAfter(map[], ops[..n + 1], clock) == NextStamps(StampsAfter(map[], ops[..n], clock), ops[n], clock(n))
  {
    assert ops[..n + 1][..n] == ops[..n];
  }

  /** In that time an entry is stamped with the very reading. */
  lemma StampIsReading(now: nat)
    ensures now < 0x1_0000_0000 ==> Stamp(now) == now
  {
    StampIs(now);
  }

  /** The stamp of a key is the reading at some write of it. */
  lemma {:induction false} StampIsFromAWrite(ops: seq<Op>, clock: nat -> nat, n: nat, k: Key) returns (i: nat)
    requires InEra(ops, clock) && n <= |ops| && k in StampsAfter(map[], ops[..n], clock)
    ensures i < n && Writes(ops[i], k) && StampsAfter(map[], ops[..n], clock)[k] == clock(i)
  {
    hide Stamp;
    var m := n - 1;
    StampsPush(ops, clock, m);
    if Writes(ops[m], k) {
      StampIsReading(clock(m));
      i := m;
    } else {
      i := StampIsFromAWrite(ops, clock, m, k);
    }
  }

  /** If stamps rise, the stamp of a key is no earlier than the reading at any write of it. */
  lemma {:induction false} StampIsLatest(ops: seq<Op>, clock: nat -> nat, n: nat, i: nat)
    requires InEra(ops, clock) && Rising(map[], ops, clock) && i < n <= |ops| && !ops[i].GetOp?
    ensures var stamps := StampsAfter(map[], ops[..n], clock); ops[i].key in stamps && clock(i) <= stamps[ops[i].key]
  {
    hide Stamp;
    var m := n - 1;
    StampsPush(ops, clock, m);
    StampIsReading(clock(m));
    if i < m {
      StampIsLatest(ops, clock, m, i);
    }
  }

  /** Stamps of a new store rise exactly when the clock does. */
  lemma RisingExactly(ops: seq<Op>, clock: nat -> nat)
    requires InEra(ops, clock)
    ensures Rising(map[], ops, clock) <==> ClockRises(ops, clock)
  {
    hide Stamp, StampsAfter;
    if ClockRises(ops, clock) {
      forall j | 0 <= j < |ops| && !ops[j].GetOp? ensures Later(StampsAfter(map[], ops[..j], clock), ops[j].key, Stamp(clock(j))) {
        StampIsReading(clock(j));
        if ops[j].key in StampsAfter(map[], ops[..j], clock) {
          var i := StampIsFromAWrite(ops, clock, j, ops[j].key);
        }
      }
    }
    if Rising(map[], ops, clock) {
      forall i, j | 0 <= i < j < |ops| && !ops[i].GetOp? && Writes(ops[j], ops[i].key) ensures clock(i) < clock(j) {
        StampIsLatest(ops, clock, j, i);
        StampIsReading(clock(j));
      }
    }
  }

  /** The run of a new store. */
  ghost predicate NewRun(trace: seq<Disk>, ops: seq<Op>, clock: nat -> nat, maxSize: nat, config: MergeConfig, active: nat)
  {
    IsRun(trace, ops, clock, maxSize, config) && trace[0] == Disk(map[active := []], map[], active, 0)
  }

  /** Over every run of a new store whose clock rises over the writes of each key and whose merges read
      settled segments, all answers are those of a plain map that starts empty. */
  lemma ClockedRuns(trace: seq<Disk>, ops: seq<Op>, clock: nat -> nat, maxSize: nat, config: MergeConfig, active: nat)
    requires NewRun(trace, ops, clock, maxSize, config, active) && InEra(ops, clock) && ClockRises(ops, clock)
    requires |trace| == |ops| + 1 && MergesAreSettled(trace, ops, config)
    ensures ActsAsMap(trace, ops) && Contents(trace[0]) == map[]
  {
    hide ActsAsMap, MergesAreSettled, Rising, InEra, ClockRises, Tracked, Contents, DiskOk, OneHome, IsRun;
    NewIsTracked(active);
    RisingExactly(ops, clock);
    SettledRuns(trace, ops, clock, maxSize, config, map[]);
  }

  /** Over every run of a new store that writes each key once and deletes none, in the era of its clock. */
  lemma ClockedWriteOnceRuns(trace: seq<Disk>, ops: seq<Op>, clock: nat -> nat, maxSize: nat, config: MergeConfig, active: nat)
    requires NewRun(trace, ops, clock, maxSize, config, active) && InEra(ops, clock) && WriteOnce({}, ops)
    requires |trace| == |ops| + 1
    ensures ActsAsMap(trace, ops) && Contents(trace[0]) == map[]
  {
    assert ClockRises(ops, clock);
    hide ActsAsMap, Rising, InEra, ClockRises, Tracked, Contents, DiskOk, OneHome, IsRun, WriteOnce;
    NewIsTracked(active);
    RisingExactly(ops, clock);
    WriteOnceRuns(trace, ops, clock, maxSize, config, map[]);
  }

  // ----- a key that is written twice and merged -----

  /** Where a put without a merge goes when segments hold one entry each. */
  lemma PutIsAlone(d: Disk, k: Key, v: Value, now: nat, config: MergeConfig, d': Disk)
    requires d.active in d.logs && StepTo(d, PutOp(k, v), now, 1, config, d') && d.counter < config.runMergeEvery
    requires now < 0x1_0000_0000
    ensures if d.logs[d.active] == [] then d'.active == d.active else d'.active !in d.logs
    ensures d'.logs == d.logs[d'.active := [Record(k, v, false, now)]] && d'.counter == d.counter + 1
    ensures k in d'.directory && d'.directory[k].fileId == d'.active
    ensures forall j :: j != k ==> (j in d'.directory <==> j in d.directory) && (j in d.directory ==> d'.directory[j] == d.directory[j])
  {
    hide Stamp, Names, Encode;
    var mid, ids, p :| PutStep(d, k, v, now, 1, config, mid, ids, p, d');
    StampIsReading(now);
    var log := d.logs[d.active];
    if log != [] {
      EncodedLength(log[|log| - 1]);
    } else {
      assert [] + [Record(k, v, false, now)] == [Record(k, v, false, now)];
    }
  }

  /** Three segments with one entry each: two of the same key, and the active one. */
  ghost predicate TwiceWritten(d: Disk, k: Key, a: nat, b: nat, older: Record, newer: Record)
  {
    && d.logs.Keys == {a, b, d.active} && a != b && d.active != a && d.active != b && d.counter == 3
    && d.logs[a] == [older] && d.logs[b] == [newer] && older.key == newer.key == k
    && k in d.directory && d.directory[k].fileId == b
  }

  lemma ThreeAlone(d0: Disk, d1: Disk, d2: Disk, d3: Disk, k: Key, older: Value, newer: Value, j: Key, other: Value,
                   clock: nat -> nat, config: MergeConfig, active: nat)
    requires d0 == Disk(map[active := []], map[], active, 0) && config.runMergeEvery == 3 && k != j
    requires clock(0) < 0x1_0000_0000 && clock(1) < 0x1_0000_0000 && clock(2) < 0x1_0000_0000
    requires StepTo(d0, PutOp(k, older), clock(0), 1, config, d1)
    requires StepTo(d1, PutOp(k, newer), clock(1), 1, config, d2)
    requires StepTo(d2, PutOp(j, other), clock(2), 1, config, d3)
    ensures d0.counter == 0 && d1.counter == 1 && d2.counter == 2
    ensures TwiceWritten(d3, k, active, d2.active, Record(k, older, false, clock(0)), Record(k, newer, false, clock(1)))
  {
    hide StepTo;
    PutIsAlone(d0, k, older, clock(0), config, d1);
    PutIsAlone(d1, k, newer, clock(1), config, d2);
    PutIsAlone(d2, j, other, clock(2), config, d3);
  }

  lemma BothOfTwo(ids: set<nat>, a: nat, b: nat)
    requires ids <= {a, b} && |ids| == 2
    ensures ids == {a, b}
  {
    if a !in ids {
      assert ids <= {b};
      SmallSet(ids, b);
    } else if b !in ids {
      assert ids <= {a};
      SmallSet(ids, a);
    }
  }

  lemma SmallSet(ids: set<nat>, a: nat)
    requires ids <= {a}
    ensures |ids| <= 1
  {
    assert ids == {} || ids == {a};
  }

  /** Such a merge reads the two entries of the key, and the later one settles it. */
  lemma TwiceIsSettled(d: Disk, k: Key, a: nat, b: nat, older: Record, newer: Record, config: MergeConfig, stamps: map<Key, nat>)
    requires TwiceWritten(d, k, a, b, older, newer) && Tracked(d.logs, d.directory, stamps) && config.readAll
    ensures MergeIsSettled(d, config) && config.ToRead(|d.logs| - 1) == 2
  {
    hide Tracked;
    assert |d.logs| == |d.logs.Keys| == 3;
    forall ids: set<nat> | ids <= d.logs.Keys - {d.active} && 2 <= |ids| == config.ToRead(|d.logs| - 1) ensures Settled(d, ids) {
      BothOfTwo(ids, a, b);
      assert SelfContained(d, ids);
      SelfContainedIsSettled(d, ids, stamps);
    }
  }

  /** The writes of the run below: a key twice, and then two others. */
  ghost predicate Rewrites(ops: seq<Op>, k: Key, older: Value, newer: Value)
  {
    && |ops| == 4 && ops[0] == PutOp(k, older) && ops[1] == PutOp(k, newer)
    && ops[2].PutOp? && ops[2].key != k && ops[3].PutOp? && ops[3].key != k
  }

  lemma RewriteSteps(trace: seq<Disk>, ops: seq<Op>, clock: nat -> nat, config: MergeConfig, active: nat, k: Key, older: Value, newer: Value)
    requires NewRun(trace, ops, clock, 1, config, active) && InEra(ops, clock) && Rewrites(ops, k, older, newer) && config.runMergeEvery == 3
    ensures |trace| == 5 && trace[0].counter == 0 && trace[1].counter == 1 && trace[2].counter == 2
    ensures TwiceWritten(trace[3], k, active, trace[2].active, Record(k, older, false, clock(0)), Record(k, newer, false, clock(1)))
  {
    hide IsRun, StepTo, TwiceWritten, OpFits;
    RunStep(trace, ops, clock, 1, config, 0);
    RunStep(trace, ops, clock, 1, config, 1);
    RunStep(trace, ops, clock, 1, config, 2);
    ThreeAlone(trace[0], trace[1], trace[2], trace[3], k, older, newer, ops[2].key, ops[2].value, clock, config, active);
  }

  /** The only merge of that run reads settled segments. */
  lemma RewriteIsSettled(trace: seq<Disk>, ops: seq<Op>, clock: nat -> nat, config: MergeConfig, active: nat,
                         k: Key, b: nat, older: Record, newer: Record)
    requires NewRun(trace, ops, clock, 1, config, active) && Rising(map[], ops, clock) && |ops| == 4 && |trace| == 5
    requires config.runMergeEvery == 3 && config.readAll
    requires trace[0].counter == 0 && trace[1].counter == 1 && trace[2].counter == 2
    requires TwiceWritten(trace[3], k, active, b, older, newer)
    ensures MergesAreSettled(trace, ops, config) && config.ToRead(|trace[3].logs| - 1) == 2
  {
    hide IsRun, TwiceWritten, Tracked, DiskOk, Contents, Rising, MergeIsSettled, OneHome;
    NewIsTracked(active);
    TrackedPrefix(trace, ops, clock, 1, config, map[], 3);
    TwiceIsSettled(trace[3], k, active, b, older, newer, config, StampsAfter(map[], ops[..3], clock));
  }

  /** A new store with segments of one entry that merges all of them after every third write: a key is
      written twice, two others follow, and the last write merges the two entries of the key. The store
      still answers with the second value. */
  lemma RewriteSurvives(trace: seq<Disk>, ops: seq<Op>, clock: nat -> nat, config: MergeConfig, active: nat,
                        k: Key, older: Value, newer: Value)
    requires NewRun(trace, ops, clock, 1, config, active) && InEra(ops, clock) && ClockRises(ops, clock)
    requires Rewrites(ops, k, older, newer) && config.runMergeEvery == 3 && config.readAll
    ensures |trace| == 5 && TwiceWritten(trace[3], k, active, trace[2].active,
                                         Record(k, older, false, clock(0)), Record(k, newer, false, clock(1)))
    ensures RunsMerge(trace[3], ops[3], config) && config.ToRead(|trace[3].logs| - 1) == 2
    ensures Lookup(Contents(trace[4]), k) == Some(newer)
  {
    hide NewRun, InEra, ClockRises, TwiceWritten, MergesAreSettled, ActsAsMap, Contents, After, Rising;
    RewriteSteps(trace, ops, clock, config, active, k, older, newer);
    RisingExactly(ops, clock);
    RewriteIsSettled(trace, ops, clock, config, active, k, trace[2].active, Record(k, older, false, clock(0)), Record(k, newer, false, clock(1)));
    CounterIsThree(trace[3], k, active, trace[2].active, Record(k, older, false, clock(0)), Record(k, newer, false, clock(1)));
    ClockedRuns(trace, ops, clock, 1, config, active);
    EndsAs(trace, ops);
    AfterRewrites(ops, k, older, newer);
  }

  lemma EndsAs(trace: seq<Disk>, ops: seq<Op>)
    requires |trace| == |ops| + 1 && ActsAsMap(trace, ops)
    ensures Contents(trace[|ops|]) == After(Contents(trace[0]), ops)
  {
    hide Contents, After, DiskOk;
    assert ops[..|ops|] == ops;
  }

  lemma CounterIsThree(d: Disk, k: Key, a: nat, b: nat, older: Record, newer: Record)
    requires TwiceWritten(d, k, a, b, older, newer)
    ensures d.counter == 3
  {}

  lemma AfterRewrites(ops: seq<Op>, k: Key, older: Value, newer: Value)
    requires Rewrites(ops, k, older, newer)
    ensures Lookup(After(map[], ops), k) == Some(newer)
  {
    hide After;
    assert ops[..4] == ops;
    AfterOneMore(map[], ops, 3);
    AfterOneMore(map[], ops, 2);
    AfterOneMore(map[], ops, 1);
  }
}
