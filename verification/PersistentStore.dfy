/** The durable store: an in-memory store, an event table, and the two files behind them. */
module PersistentStore {
  import opened Text
  import opened Collections
  import opened StateStore

  /** The decoded arguments of a clearinghouse event. */
  datatype Event =
    | PaycardProvisioned(payer: string, recipient: string, metadataHash: string,
                         poolAllocation: nat, velocity: nat, genesis: nat, lifespan: nat)
    | SettlementFlushed(recipient: string, amountWithdrawn: nat)
    | ResidualDeltaReclaimed(recoveryVault: string, varianceSwept: nat)
    | OtherEvent(name: string)

  datatype EventRecord = EventRecord(
    paycardId: string,
    event: Event,
    workflowId: Option<string>,
    metadataHash: Option<string>,
    blockNumber: nat,
    blockTimestamp: Option<nat>,
    transactionHash: string,
    logIndex: nat,
    recordedAt: nat)

  /** What `stream-state.json` holds: nothing, unparsable text, or a list of states. */
  datatype StateFile = NoStateFile | CorruptSnapshot | Snapshot(states: seq<Stream>)

  /** A line of `stream-events.jsonl`. */
  datatype Line = Blank | Malformed | Recorded(record: EventRecord)

  datatype Disk = Disk(state: StateFile, events: Option<seq<Line>>)

  datatype Durable = Durable(mem: Memory, events: seq<EventRecord>, keys: set<string>, disk: Disk)

  function EventKey(transactionHash: string, logIndex: nat): string {
    Keyed(transactionHash, logIndex)
  }

  function KeyOf(r: EventRecord): string {
    EventKey(r.transactionHash, r.logIndex)
  }

  // ---------------------------------------------------------------------------------------
  // Loading
  // ---------------------------------------------------------------------------------------

  function LoadStates(states: seq<Stream>): (mem: Memory)
    ensures IndexAgrees(mem)
  {
    if |states| == 0 then EMPTY
    else
      var mem, s := LoadStates(states[..|states| - 1]), states[|states| - 1];
      SetKeepsIndex(mem, s.paycardId, s);
      SetState(mem, s.paycardId, s)
  }

  /** Records in the order of the file; a line whose key has been seen is skipped. */
  function LoadEvents(lines: seq<Line>): (seq<EventRecord>, set<string>) {
    if |lines| == 0 then ([], {})
    else
      var (events, keys) := LoadEvents(lines[..|lines| - 1]);
      match lines[|lines| - 1]
      case Recorded(r) => if KeyOf(r) in keys then (events, keys) else (events + [r], keys + {KeyOf(r)})
      case _ => (events, keys)
  }

  function SnapshotStates(file: StateFile): seq<Stream> {
    match file
    case Snapshot(states) => states
    case _ => []
  }

  function EventLines(disk: Disk): seq<Line> {
    match disk.events
    case None => []
    case Some(lines) => lines
  }

  function Load(disk: Disk): Durable {
    var (events, keys) := LoadEvents(EventLines(disk));
    Durable(LoadStates(SnapshotStates(disk.state)), events, keys, disk)
  }

  // ---------------------------------------------------------------------------------------
  // Operations
  // ---------------------------------------------------------------------------------------

  datatype StoreOp =
    | OpSet(id: string, state: Stream)
    | OpDelete(id: string)
    | OpBind(id: string, workflowId: Option<string>)
    | OpRecord(record: EventRecord)
    | OpProject(id: string, projected: Option<nat>)   // a tick's assignment, never written to disk

  function Persist(d: Durable, mem: Memory): Durable
    requires mem.store.Valid()
  {
    d.(mem := mem, disk := d.disk.(state := Snapshot(mem.store.Values())))
  }

  function Record(d: Durable, r: EventRecord): Durable {
    if KeyOf(r) in d.keys then d
    else d.(events := d.events + [r], keys := d.keys + {KeyOf(r)},
            disk := d.disk.(events := Some(EventLines(d.disk) + [Recorded(r)])))
  }

  function Project(mem: Memory, id: string, projected: Option<nat>): Memory {
    if id in mem.store.m then mem.(store := mem.store.(m := mem.store.m[id := mem.store.m[id].(projected := projected)]))
    else mem
  }

  function Do(d: Durable, op: StoreOp): (r: Durable)
    requires IndexAgrees(d.mem)
    ensures IndexAgrees(r.mem)
  {
    match op
    case OpSet(id, state) =>
      SetKeepsIndex(d.mem, id, state);
      Persist(d, SetState(d.mem, id, state))
    case OpDelete(id) =>
      DeleteKeepsIndex(d.mem, id);
      if id in d.mem.store.m then Persist(d, DeleteState(d.mem, id)) else d
    case OpBind(id, w) =>
      BindKeepsIndex(d.mem, id, w);
      if id in d.mem.store.m then Persist(d, BindState(d.mem, id, w)) else d
    case OpRecord(r) => Record(d, r)
    case OpProject(id, p) =>
      ProjectKeepsIndex(d.mem, id, p);
      d.(mem := Project(d.mem, id, p))
  }

  lemma ProjectKeepsIndex(mem: Memory, id: string, p: Option<nat>)
    requires IndexAgrees(mem)
    ensures IndexAgrees(Project(mem, id, p))
  {
    var r := Project(mem, id, p);
    forall w ensures Lists(r.index, r.store.m, w) {
      assert Lists(mem.index, mem.store.m, w);
    }
  }

  function DoAll(d: Durable, ops: seq<StoreOp>): (r: Durable)
    requires IndexAgrees(d.mem)
    ensures IndexAgrees(r.mem)
  {
    if |ops| == 0 then d else Do(DoAll(d, ops[..|ops| - 1]), ops[|ops| - 1])
  }

  // ---------------------------------------------------------------------------------------
  // Restart refinement
  // ---------------------------------------------------------------------------------------

  function Unprojected(s: Stream): Stream {
    s.(projected := None)
  }

  /** The same ids in the same order with the same states, projections aside, and the same workflow membership. */
  ghost predicate SameMemory(a: Memory, b: Memory) {
    && a.store.order == b.store.order
    && a.store.m.Keys == b.store.m.Keys
    && (forall id | id in a.store.m :: Unprojected(a.store.m[id]) == Unprojected(b.store.m[id]))
    && (forall w, id :: id in Members(a.index, w) <==> id in Members(b.index, w))
  }

  /** Reading the two files again gives back what the process holds. */
  ghost predicate Restartable(d: Durable) {
    var l := Load(d.disk);
    SameMemory(l.mem, d.mem) && l.events == d.events && l.keys == d.keys
  }

  ghost predicate KeyedByPaycard(mem: Memory) {
    forall id | id in mem.store.m :: mem.store.m[id].paycardId == id
  }

  /** Membership is a function of the states, so it agrees whenever they do. */
  lemma SameStatesSameMembers(a: Memory, b: Memory)
    requires IndexAgrees(a) && IndexAgrees(b)
    requires a.store.order == b.store.order && a.store.m.Keys == b.store.m.Keys
    requires forall id | id in a.store.m :: Unprojected(a.store.m[id]) == Unprojected(b.store.m[id])
    ensures SameMemory(a, b)
  {
    forall w, id ensures id in Members(a.index, w) <==> id in Members(b.index, w) {
      assert Lists(a.index, a.store.m, w) && Lists(b.index, b.store.m, w);
      if id in a.store.m {
        assert a.store.m[id].workflowId == Unprojected(a.store.m[id]).workflowId == b.store.m[id].workflowId;
      }
    }
  }

  lemma {:induction false} LoadedKeyed(states: seq<Stream>)
    ensures KeyedByPaycard(LoadStates(states))
  {
    if |states| == 0 {
    } else {
      LoadedKeyed(states[..|states| - 1]);
    }
  }

  lemma LoadLast(states: seq<Stream>, s: Stream)
    ensures LoadStates(states + [s]).store == LoadStates(states).store.Put(s.paycardId, s)
  {
    assert (states + [s])[..|states + [s]| - 1] == states;
  }

  /** `st` lists the keys `ks`, in that order, with their values in `m`. */
  ghost predicate HoldsIn(st: OMap<string, Stream>, m: map<string, Stream>, ks: seq<string>) {
    && st.order == ks
    && (forall k :: k in st.m <==> k in ks)
    && (forall k | k in ks :: k in m && k in st.m && st.m[k] == m[k])
  }

  lemma PutHolds(st: OMap<string, Stream>, m: map<string, Stream>, ks: seq<string>, k: string)
    requires HoldsIn(st, m, ks) && k in m && k !in ks
    ensures HoldsIn(st.Put(k, m[k]), m, ks + [k])
  {
  }

  lemma ReloadSnoc(m: map<string, Stream>, ks: seq<string>, k: string)
    requires forall j | j in ks :: j in m
    requires HoldsIn(LoadStates(Select(m, ks)).store, m, ks) && k in m && k !in ks && m[k].paycardId == k
    ensures HoldsIn(LoadStates(Select(m, ks + [k])).store, m, ks + [k])
  {
    LoadLast(Select(m, ks), m[k]);
    PutHolds(LoadStates(Select(m, ks)).store, m, ks, k);
    SelectSnoc(m, ks, k);
  }

  lemma {:induction false} ReloadPrefix(m: map<string, Stream>, ks: seq<string>)
    requires NoDup(ks) && forall k | k in ks :: k in m && m[k].paycardId == k
    ensures HoldsIn(LoadStates(Select(m, ks)).store, m, ks)
  {
    if |ks| == 0 {
    } else {
      var front, k := ks[..|ks| - 1], ks[|ks| - 1];
      ReloadPrefix(m, front);
      ReloadSnoc(m, front, k);
      assert ks == front + [k];
    }
  }

  /** A snapshot of the store reads back as the store exactly when every state is stored under its own paycard id. */
  lemma ReloadExact(mem: Memory)
    requires IndexAgrees(mem)
    ensures SameMemory(LoadStates(mem.store.Values()), mem) <==> KeyedByPaycard(mem)
  {
    var l := LoadStates(mem.store.Values());
    if KeyedByPaycard(mem) {
      ReloadPrefix(mem.store.m, mem.store.order);
      SameStatesSameMembers(l, mem);
    }
    if SameMemory(l, mem) {
      LoadedKeyed(mem.store.Values());
      forall id | id in mem.store.m ensures mem.store.m[id].paycardId == id {
        assert l.store.m[id].paycardId == Unprojected(l.store.m[id]).paycardId == Unprojected(mem.store.m[id]).paycardId;
      }
    }
  }

  lemma LoadAppend(lines: seq<Line>, r: EventRecord)
    ensures var (events, keys) := LoadEvents(lines);
      LoadEvents(lines + [Recorded(r)]) == if KeyOf(r) in keys then (events, keys) else (events + [r], keys + {KeyOf(r)})
  {
    assert (lines + [Recorded(r)])[..|lines|] == lines;
  }

  predicate WritesOwnId(op: StoreOp) {
    op.OpSet? ==> op.id == op.state.paycardId
  }

  lemma PersistRestartable(d: Durable, mem: Memory)
    requires Restartable(d) && IndexAgrees(mem) && KeyedByPaycard(mem)
    ensures Restartable(Persist(d, mem))
  {
    ReloadExact(mem);
  }

  lemma RecordRestartable(d: Durable, r: EventRecord)
    requires Restartable(d)
    ensures Restartable(Record(d, r))
  {
    LoadAppend(EventLines(d.disk), r);
  }

  lemma ProjectRestartable(d: Durable, id: string, p: Option<nat>)
    requires Restartable(d) && IndexAgrees(d.mem)
    ensures Restartable(d.(mem := Project(d.mem, id, p)))
  {
    ProjectKeepsIndex(d.mem, id, p);
    SameStatesSameMembers(Load(d.disk).mem, Project(d.mem, id, p));
  }

  lemma DoKeyed(d: Durable, op: StoreOp)
    requires IndexAgrees(d.mem) && KeyedByPaycard(d.mem) && WritesOwnId(op)
    ensures KeyedByPaycard(Do(d, op).mem)
  {
  }

  lemma DoRestartable(d: Durable, op: StoreOp)
    requires IndexAgrees(d.mem) && KeyedByPaycard(d.mem) && Restartable(d) && WritesOwnId(op)
    ensures KeyedByPaycard(Do(d, op).mem) && Restartable(Do(d, op))
  {
    DoKeyed(d, op);
    match op
    case OpRecord(e) => RecordRestartable(d, e);
    case OpProject(id, p) => ProjectRestartable(d, id, p);
    case _ =>
      if Do(d, op) != d {
        PersistRestartable(d, Do(d, op).mem);
      }
  }

  /** Whatever the files held at first, after any operations that store each state under its own id a restart
      loses nothing but projections. */
  lemma {:induction false} RestartRefinement(disk: Disk, ops: seq<StoreOp>)
    requires forall k | 0 <= k < |ops| :: WritesOwnId(ops[k])
    ensures KeyedByPaycard(DoAll(Load(disk), ops).mem) && Restartable(DoAll(Load(disk), ops))
  {
    if |ops| == 0 {
      LoadedKeyed(SnapshotStates(disk.state));
    } else {
      RestartRefinement(disk, ops[..|ops| - 1]);
      DoRestartable(DoAll(Load(disk), ops[..|ops| - 1]), ops[|ops| - 1]);
    }
  }

  /** Without that discipline it fails: a state stored under another id comes back under its own. */
  lemma ForeignIdLost(state: Stream, id: string)
    requires id != state.paycardId
    ensures !Restartable(Do(Load(Disk(NoStateFile, None)), OpSet(id, state)))
  {
    var d := Do(Load(Disk(NoStateFile, None)), OpSet(id, state));
    assert d.mem.store.m[id] == state;
    ReloadExact(d.mem);
  }

  // ---------------------------------------------------------------------------------------
  // The event table
  // ---------------------------------------------------------------------------------------

  function KeysOf(events: seq<EventRecord>): (r: seq<string>)
    ensures |r| == |events| && forall i | 0 <= i < |events| :: r[i] == KeyOf(events[i])
  {
    seq(|events|, i requires 0 <= i < |events| => KeyOf(events[i]))
  }

  ghost predicate TableConsistent(d: Durable) {
    NoDup(KeysOf(d.events)) && forall k :: k in d.keys <==> k in KeysOf(d.events)
  }

  lemma {:induction false} LoadedTable(lines: seq<Line>)
    ensures var (events, keys) := LoadEvents(lines);
      NoDup(KeysOf(events)) && forall k :: k in keys <==> k in KeysOf(events)
  {
    if |lines| == 0 {
    } else {
      var front := lines[..|lines| - 1];
      LoadedTable(front);
      var (events, keys) := LoadEvents(front);
      var (events', keys') := LoadEvents(lines);
      if events' != events {
        assert KeysOf(events') == KeysOf(events) + [KeyOf(lines[|lines| - 1].record)];
      }
    }
  }

  lemma DoTable(d: Durable, op: StoreOp)
    requires IndexAgrees(d.mem) && TableConsistent(d)
    ensures TableConsistent(Do(d, op))
  {
    var d' := Do(d, op);
    if d'.events != d.events {
      assert KeysOf(d'.events) == KeysOf(d.events) + [KeyOf(op.record)];
      NoDupAppend(KeysOf(d.events), KeyOf(op.record));
    }
  }

  /** The table never holds two events with the same transaction hash and log index, across restarts included. */
  lemma {:induction false} TableUnique(disk: Disk, ops: seq<StoreOp>)
    ensures TableConsistent(DoAll(Load(disk), ops))
  {
    if |ops| == 0 {
      LoadedTable(EventLines(disk));
    } else {
      TableUnique(disk, ops[..|ops| - 1]);
      DoTable(DoAll(Load(disk), ops[..|ops| - 1]), ops[|ops| - 1]);
    }
  }

  /** Two events share a key exactly when both transaction hash and log index agree. */
  lemma EventKeySeparates(a: EventRecord, b: EventRecord)
    ensures KeyOf(a) == KeyOf(b) <==> a.transactionHash == b.transactionHash && a.logIndex == b.logIndex
  {
    KeyedInjective(a.transactionHash, a.logIndex, b.transactionHash, b.logIndex);
  }

  // ---------------------------------------------------------------------------------------
  // The reader in the other process
  // ---------------------------------------------------------------------------------------

  /** `readEvents` keeps every parsable line, repeated keys included. */
  function ReadEvents(lines: seq<Line>): seq<EventRecord> {
    if |lines| == 0 then []
    else
      ReadEvents(lines[..|lines| - 1]) +
      (match lines[|lines| - 1] case Recorded(r) => [r] case _ => [])
  }

  lemma NoDupSnoc(read: seq<EventRecord>, r: EventRecord)
    ensures NoDup(KeysOf(read + [r])) <==> NoDup(KeysOf(read)) && KeyOf(r) !in KeysOf(read)
    ensures forall k :: k in KeysOf(read + [r]) <==> k in KeysOf(read) || k == KeyOf(r)
  {
    assert KeysOf(read + [r]) == KeysOf(read) + [KeyOf(r)];
    NoDupAppend(KeysOf(read), KeyOf(r));
  }

  /** The reader sees the writer's event table exactly when no key is repeated in the file. */
  lemma {:induction false} ReaderSeesTable(lines: seq<Line>)
    ensures ReadEvents(lines) == LoadEvents(lines).0 <==> NoDup(KeysOf(ReadEvents(lines)))
    ensures |LoadEvents(lines).0| <= |ReadEvents(lines)|
    ensures forall k :: k in LoadEvents(lines).1 <==> k in KeysOf(ReadEvents(lines))
  {
    if |lines| == 0 {
    } else {
      var front, last := lines[..|lines| - 1], lines[|lines| - 1];
      ReaderSeesTable(front);
      if last.Recorded? {
        NoDupSnoc(ReadEvents(front), last.record);
        assert (ReadEvents(front) + [last.record])[..|ReadEvents(front)|] == ReadEvents(front);
        if KeyOf(last.record) in LoadEvents(front).1 {
          assert LoadEvents(lines).0 == LoadEvents(front).0;
        } else {
          var table := LoadEvents(front).0;
          assert LoadEvents(lines).0 == table + [last.record];
          assert (table + [last.record])[..|table|] == table;
        }
      } else {
        assert ReadEvents(lines) == ReadEvents(front);
      }
    }
  }

  // ---------------------------------------------------------------------------------------
  // The store object
  // ---------------------------------------------------------------------------------------

  class PersistentFileStateStore {
    const inner: MemoryCacheStateStore
    var events: seq<EventRecord>
    var eventKeys: set<string>
    var disk: Disk

    ghost function Abs(): Durable
      reads this, inner
    {
      Durable(inner.Abs(), events, eventKeys, disk)
    }

    ghost predicate Valid()
      reads this, inner
    {
      inner.Valid()
    }

    constructor (files: Disk)
      ensures Valid() && fresh(inner) && Abs() == Load(files)
    {
      inner := new MemoryCacheStateStore();
      events, eventKeys, disk := [], {}, files;
      new;
      LoadInner();
      LoadTable();
    }

    method LoadInner()
      requires Valid() && inner.Abs() == EMPTY
      modifies inner
      ensures Valid() && inner.Abs() == LoadStates(SnapshotStates(disk.state))
    {
      var states := SnapshotStates(disk.state);
      for i := 0 to |states|
        invariant inner.Valid() && inner.Abs() == LoadStates(states[..i])
      {
        assert states[..i + 1][..i] == states[..i];
        inner.Set(states[i].paycardId, states[i]);
      }
      assert states[..|states|] == states;
    }

    method LoadTable()
      requires events == [] && eventKeys == {}
      modifies this`events, this`eventKeys
      ensures (events, eventKeys) == LoadEvents(EventLines(disk))
    {
      var lines := EventLines(disk);
      for i := 0 to |lines|
        invariant (events, eventKeys) == LoadEvents(lines[..i])
      {
        assert lines[..i + 1][..i] == lines[..i];
        if lines[i].Recorded? {
          var key := EventKey(lines[i].record.transactionHash, lines[i].record.logIndex);
          if key !in eventKeys {
            eventKeys := eventKeys + {key};
            events := events + [lines[i].record];
          }
        }
      }
      assert lines[..|lines|] == lines;
    }

    method PersistSnapshot()
      requires Valid()
      modifies this`disk
      ensures Abs() == Persist(old(Abs()), inner.Abs())
    {
      var all := inner.GetAll();
      disk := disk.(state := Snapshot(all));
    }

    method Set(id: string, state: Stream)
      requires Valid()
      modifies this`disk, inner
      ensures Valid() && Abs() == Do(old(Abs()), OpSet(id, state))
    {
      inner.Set(id, state);
      PersistSnapshot();
    }

    method Get(id: string) returns (state: Option<Stream>)
      requires Valid()
      ensures state == if id in Abs().mem.store.m then Some(Abs().mem.store.m[id]) else None
    {
      state := inner.Get(id);
    }

    method Delete(id: string) returns (deleted: bool)
      requires Valid()
      modifies this`disk, inner
      ensures Valid() && Abs() == Do(old(Abs()), OpDelete(id))
      ensures deleted == (id in old(Abs()).mem.store.m)
    {
      deleted := inner.Delete(id);
      if deleted {
        PersistSnapshot();
      }
    }

    method BindWorkflow(id: string, w: Option<string>) returns (bound: Option<Stream>)
      requires Valid()
      modifies this`disk, inner
      ensures Valid() && Abs() == Do(old(Abs()), OpBind(id, w))
      ensures bound == if id in Abs().mem.store.m then Some(Abs().mem.store.m[id]) else None
    {
      bound := inner.BindWorkflow(id, w);
      if bound.Some? {
        PersistSnapshot();
      }
    }

    method HasEvent(key: string) returns (seen: bool)
      ensures seen == (key in eventKeys)
    {
      seen := key in eventKeys;
    }

    method RecordEvent(record: EventRecord) returns (stored: bool)
      requires Valid()
      modifies this`events, this`eventKeys, this`disk
      ensures Valid() && Abs() == Do(old(Abs()), OpRecord(record))
      ensures stored == (KeyOf(record) !in old(eventKeys))
    {
      var key := EventKey(record.transactionHash, record.logIndex);
      if key in eventKeys { return false; }
      eventKeys := eventKeys + {key};
      events := events + [record];
      disk := disk.(events := Some(EventLines(disk) + [Recorded(record)]));
      stored := true;
    }

    /** A tick assigns `projectedAvailableBalance` of a stored state without telling the store. */
    method AssignProjected(id: string, projected: Option<nat>)
      requires Valid()
      modifies inner
      ensures Valid() && Abs() == Do(old(Abs()), OpProject(id, projected))
    {
      ProjectKeepsIndex(inner.Abs(), id, projected);
      if id in inner.store.m {
        inner.store := inner.store.(m := inner.store.m[id := inner.store.m[id].(projected := projected)]);
      }
    }
  }
}
