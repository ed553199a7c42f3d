/** The in-memory stream store and its workflow index. */
module StateStore {
  import opened Text
  import opened Collections

  datatype Status = Active | PendingSettlement | Terminated

  /** One paycard's projection. Amounts are unsigned integers; times are in seconds. */
  datatype Stream = Stream(
    paycardId: string,
    payer: string,
    recipient: string,
    metadataHash: string,
    workflowId: Option<string>,
    totalAllocation: nat,
    availableBalance: nat,
    projected: Option<nat>,
    velocity: nat,
    genesis: nat,
    lifespan: nat,
    lastCheckpoint: nat,
    status: Status)

  /** The two maps of the store; a workflow's set of ids is listed in insertion order. */
  datatype Memory = Memory(store: OMap<string, Stream>, index: map<string, seq<string>>)

  const EMPTY := Memory(OMap([], map[]), map[])

  /** Absent and empty workflow ids are both falsy. */
  predicate Truthy(w: Option<string>) {
    w.Some? && w.value != ""
  }

  predicate InWorkflow(s: Stream, w: string) {
    w != "" && s.workflowId == Some(w)
  }

  function Members(index: map<string, seq<string>>, w: string): seq<string> {
    if w in index then index[w] else []
  }

  // ---------------------------------------------------------------------------------------
  // Index maintenance
  // ---------------------------------------------------------------------------------------

  function Link(index: map<string, seq<string>>, w: string, id: string): (r: map<string, seq<string>>)
    ensures forall v :: Members(r, v) == if v == w then Add(Members(index, w), id) else Members(index, v)
    ensures r.Keys == index.Keys + {w}
  {
    index[w := Add(Members(index, w), id)]
  }

  /** `set` leaves an emptied set in the index. */
  function Unlink(index: map<string, seq<string>>, w: string, id: string): (r: map<string, seq<string>>)
    ensures forall v :: Members(r, v) == if v == w then Drop(Members(index, w), id) else Members(index, v)
    ensures r.Keys == index.Keys
  {
    if w in index then index[w := Drop(index[w], id)] else index
  }

  /** `delete` and `bindWorkflow` remove an emptied set from the index. */
  function UnlinkAndPrune(index: map<string, seq<string>>, w: string, id: string): (r: map<string, seq<string>>)
    ensures forall v :: Members(r, v) == if v == w then Drop(Members(index, w), id) else Members(index, v)
    ensures w in r ==> r[w] != []
  {
    if w in index && Drop(index[w], id) == [] then index - {w} else Unlink(index, w, id)
  }

  function SetState(mem: Memory, id: string, state: Stream): Memory {
    var unlinked := Unlinked(mem, id, state);
    Memory(mem.store.Put(id, state),
           if Truthy(state.workflowId) then Link(unlinked, state.workflowId.value, id) else unlinked)
  }

  function DeleteState(mem: Memory, id: string): Memory {
    if id !in mem.store.m then mem
    else
      Memory(mem.store.Remove(id),
             if Truthy(mem.store.m[id].workflowId) then UnlinkAndPrune(mem.index, mem.store.m[id].workflowId.value, id) else mem.index)
  }

  function BindState(mem: Memory, id: string, w: Option<string>): Memory {
    if id !in mem.store.m then mem
    else
      var state := mem.store.m[id];
      var unlinked := if Truthy(state.workflowId) then UnlinkAndPrune(mem.index, state.workflowId.value, id) else mem.index;
      var bound := state.(workflowId := if Truthy(w) then w else None);
      Memory(mem.store.Put(id, bound), if Truthy(w) then Link(unlinked, w.value, id) else unlinked)
  }

  /** The index lists, for each workflow and once each, exactly the ids whose stored state carries it. */
  ghost predicate Lists(index: map<string, seq<string>>, m: map<string, Stream>, w: string) {
    NoDup(Members(index, w)) && forall id :: id in Members(index, w) <==> id in m && InWorkflow(m[id], w)
  }

  ghost predicate IndexAgrees(mem: Memory) {
    mem.store.Valid() && forall w :: Lists(mem.index, mem.store.m, w)
  }

  function Unlinked(mem: Memory, id: string, state: Stream): map<string, seq<string>> {
    if id in mem.store.m && Truthy(mem.store.m[id].workflowId) && mem.store.m[id].workflowId != state.workflowId
    then Unlink(mem.index, mem.store.m[id].workflowId.value, id)
    else mem.index
  }

  /** Before a new state is linked, its id is in no workflow but perhaps the one it is going to be in. */
  lemma UnlinkedLists(mem: Memory, id: string, state: Stream, w: string)
    requires IndexAgrees(mem)
    ensures var u := Members(Unlinked(mem, id, state), w);
      NoDup(u) && (forall x | x != id :: x in u <==> x in Members(mem.index, w)) && (id in u ==> InWorkflow(state, w))
  {
    assert Lists(mem.index, mem.store.m, w);
  }

  /** Where an id is listed after a state has been stored under it. */
  lemma SetRelisted(mem: Memory, id: string, state: Stream, w: string)
    requires IndexAgrees(mem)
    ensures var r := Members(SetState(mem, id, state).index, w);
      NoDup(r) && forall x :: x in r <==> if x == id then InWorkflow(state, w) else x in Members(mem.index, w)
  {
    UnlinkedLists(mem, id, state, w);
    LinkedIn(mem, id, state, w);
  }

  lemma LinkedIn(mem: Memory, id: string, state: Stream, w: string)
    ensures var u := Members(Unlinked(mem, id, state), w);
      Members(SetState(mem, id, state).index, w) == if InWorkflow(state, w) then Add(u, id) else u
  {
  }

  lemma SetKeepsIndex(mem: Memory, id: string, state: Stream)
    requires IndexAgrees(mem)
    ensures IndexAgrees(SetState(mem, id, state))
  {
    var r := SetState(mem, id, state);
    assert r.store == mem.store.Put(id, state);
    forall w ensures Lists(r.index, r.store.m, w) {
      assert Lists(mem.index, mem.store.m, w);
      SetRelisted(mem, id, state, w);
    }
  }

  lemma DeleteKeepsIndex(mem: Memory, id: string)
    requires IndexAgrees(mem)
    ensures IndexAgrees(DeleteState(mem, id))
  {
    var r := DeleteState(mem, id);
    forall w ensures Lists(r.index, r.store.m, w) {
      assert Lists(mem.index, mem.store.m, w);
    }
  }

  /** An id taken out of its workflow is in none. */
  lemma Unlisted(mem: Memory, id: string, v: string)
    requires IndexAgrees(mem) && id in mem.store.m
    ensures var was := mem.store.m[id].workflowId;
      var u := Members(if Truthy(was) then UnlinkAndPrune(mem.index, was.value, id) else mem.index, v);
      NoDup(u) && forall x :: x in u <==> x != id && x in Members(mem.index, v)
  {
    assert Lists(mem.index, mem.store.m, v);
  }

  /** Where an id is listed after it has been taken out of its old workflow and put into its new one. */
  lemma Relisted(mem: Memory, id: string, w: Option<string>, v: string)
    requires IndexAgrees(mem) && id in mem.store.m
    ensures var r := Members(BindState(mem, id, w).index, v);
      NoDup(r) && forall x :: x in r <==> if x == id then v != "" && w == Some(v) else x in Members(mem.index, v)
  {
    Unlisted(mem, id, v);
  }

  lemma BindKeepsIndex(mem: Memory, id: string, w: Option<string>)
    requires IndexAgrees(mem)
    ensures IndexAgrees(BindState(mem, id, w))
  {
    if id in mem.store.m {
      var r := BindState(mem, id, w);
      assert r.store == mem.store.Put(id, r.store.m[id]);
      forall v ensures Lists(r.index, r.store.m, v) {
        assert Lists(mem.index, mem.store.m, v);
        Relisted(mem, id, w, v);
      }
    }
  }

  // ---------------------------------------------------------------------------------------
  // Queries
  // ---------------------------------------------------------------------------------------

  predicate IsActive(s: Stream) {
    s.status == Active
  }

  /** The linear scan's test: Active, and its computed expiration is at or before `now`. */
  predicate ExpiredBy(s: Stream, now: real) {
    s.status == Active && now >= (s.genesis + s.lifespan) as real
  }

  lemma SelectSnoc(m: map<string, Stream>, ks: seq<string>, k: string)
    requires k in m && forall j | j in ks :: j in m
    ensures Select(m, ks + [k]) == Select(m, ks) + [m[k]]
  {
  }

  lemma {:induction false} FilterSelect(p: Stream -> bool, q: string -> bool, m: map<string, Stream>, ks: seq<string>)
    requires forall k | k in ks :: k in m
    requires forall k | k in m :: q(k) == p(m[k])
    ensures forall k | k in Filter(q, ks) :: k in m
    ensures Filter(p, Select(m, ks)) == Select(m, Filter(q, ks))
  {
    FilterMembers(q, ks);
    if |ks| == 0 {
    } else {
      var front, k := ks[..|ks| - 1], ks[|ks| - 1];
      assert ks == front + [k];
      FilterSelect(p, q, m, front);
      SelectSnoc(m, front, k);
      FilterSnoc(p, Select(m, front), m[k]);
      FilterSnoc(q, front, k);
      if q(k) {
        SelectSnoc(m, Filter(q, front), k);
      }
    }
  }

  /** Reading through the index finds the same streams, each as often, as scanning the whole store. */
  lemma IndexMatchesScan(mem: Memory, w: string)
    requires IndexAgrees(mem)
    ensures forall id | id in Members(mem.index, w) :: id in mem.store.m
    ensures multiset(Select(mem.store.m, Members(mem.index, w))) == multiset(Filter(s => InWorkflow(s, w), mem.store.Values()))
  {
    var m := mem.store.m;
    assert Lists(mem.index, m, w);
    var q := k => k in m && InWorkflow(m[k], w);
    FilterSelect(s => InWorkflow(s, w), q, m, mem.store.order);
    FilterNoDup(q, mem.store.order);
    FilterMembers(q, mem.store.order);
    NoDupPermutation(Members(mem.index, w), Filter(q, mem.store.order));
    SelectPermutation(m, Members(mem.index, w), Filter(q, mem.store.order));
  }

  lemma {:induction false} FilterCount(p: Stream -> bool, s: seq<Stream>, x: Stream)
    ensures multiset(Filter(p, s))[x] == if p(x) then multiset(s)[x] else 0
  {
    if |s| == 0 {
    } else {
      var n := |s| - 1;
      FilterCount(p, s[..n], x);
      assert s == s[..n] + [s[n]];
    }
  }

  lemma FilterTwice(p: Stream -> bool, q: Stream -> bool, r: Stream -> bool, s: seq<Stream>, t: seq<Stream>)
    requires multiset(s) == multiset(Filter(p, t)) && forall x :: r(x) == (p(x) && q(x))
    ensures multiset(Filter(q, s)) == multiset(Filter(r, t))
  {
    forall x ensures multiset(Filter(q, s))[x] == multiset(Filter(r, t))[x] {
      FilterCount(p, t, x);
      FilterCount(q, s, x);
      FilterCount(r, t, x);
    }
  }

  class MemoryCacheStateStore {
    var store: OMap<string, Stream>
    var workflowIndex: map<string, seq<string>>

    ghost function Abs(): Memory
      reads this
    {
      Memory(store, workflowIndex)
    }

    ghost predicate Valid()
      reads this
    {
      IndexAgrees(Abs())
    }

    constructor ()
      ensures Valid() && Abs() == EMPTY
    {
      store, workflowIndex := OMap([], map[]), map[];
    }

    method Set(id: string, state: Stream)
      requires Valid()
      modifies this
      ensures Valid() && Abs() == SetState(old(Abs()), id, state)
    {
      SetKeepsIndex(Abs(), id, state);
      if id in store.m {
        var previous := store.m[id];
        if Truthy(previous.workflowId) && previous.workflowId != state.workflowId {
          workflowIndex := Unlink(workflowIndex, previous.workflowId.value, id);
        }
      }
      store := store.Put(id, state);
      if Truthy(state.workflowId) {
        workflowIndex := Link(workflowIndex, state.workflowId.value, id);
      }
    }

    method Get(id: string) returns (state: Option<Stream>)
      requires Valid()
      ensures state == if id in store.m then Some(store.m[id]) else None
    {
      state := if id in store.m then Some(store.m[id]) else None;
    }

    method Delete(id: string) returns (deleted: bool)
      requires Valid()
      modifies this
      ensures Valid() && Abs() == DeleteState(old(Abs()), id)
      ensures deleted == old(id in store.m)
    {
      DeleteKeepsIndex(Abs(), id);
      if id !in store.m { return false; }
      var previous := store.m[id];
      if Truthy(previous.workflowId) {
        workflowIndex := UnlinkAndPrune(workflowIndex, previous.workflowId.value, id);
      }
      store := store.Remove(id);
      deleted := true;
    }

    method BindWorkflow(id: string, w: Option<string>) returns (bound: Option<Stream>)
      requires Valid()
      modifies this
      ensures Valid() && Abs() == BindState(old(Abs()), id, w)
      ensures bound == if id in store.m then Some(store.m[id]) else None
    {
      BindKeepsIndex(Abs(), id, w);
      if id !in store.m { return None; }
      var state := store.m[id];
      if Truthy(state.workflowId) {
        workflowIndex := UnlinkAndPrune(workflowIndex, state.workflowId.value, id);
      }
      state := state.(workflowId := if Truthy(w) then w else None);
      store := store.Put(id, state);
      if Truthy(state.workflowId) {
        workflowIndex := Link(workflowIndex, state.workflowId.value, id);
      }
      bound := Some(state);
    }

    method GetAll() returns (result: seq<Stream>)
      requires Valid()
      ensures result == store.Values()
      ensures |result| == |store.order| && forall i | 0 <= i < |result| :: result[i] == store.m[store.order[i]]
    {
      result := store.Values();
    }

    method GetActive() returns (result: seq<Stream>)
      requires Valid()
      ensures result == Filter(IsActive, store.Values())
      ensures forall s :: s in result <==> s in store.Values() && s.status == Active
    {
      FilterMembers(IsActive, store.Values());
      result := Scan(IsActive);
    }

    method GetExpired(now: real) returns (result: seq<Stream>)
      requires Valid()
      ensures result == Filter((s: Stream) => ExpiredBy(s, now), store.Values())
      ensures forall s :: s in result <==> s in store.Values() && s.status == Active && now >= (s.genesis + s.lifespan) as real
    {
      FilterMembers((s: Stream) => ExpiredBy(s, now), store.Values());
      result := Scan((s: Stream) => ExpiredBy(s, now));
    }

    /** The loop over `store.values()` that both scans share. */
    method Scan(p: Stream -> bool) returns (result: seq<Stream>)
      requires Valid()
      ensures result == Filter(p, store.Values())
    {
      result := [];
      var all := store.Values();
      for i := 0 to |all|
        invariant result == Filter(p, all[..i])
      {
        assert all[..i + 1][..i] == all[..i];
        if p(all[i]) {
          result := result + [all[i]];
        }
      }
      assert all[..|all|] == all;
    }

    method GetByWorkflow(w: string) returns (result: seq<Stream>)
      requires Valid()
      ensures multiset(result) == multiset(Filter((s: Stream) => InWorkflow(s, w), store.Values()))
    {
      var ids := Members(workflowIndex, w);
      IndexMatchesScan(Abs(), w);
      result := [];
      for i := 0 to |ids|
        invariant result == Select(store.m, ids[..i])
      {
        if ids[i] in store.m {
          result := result + [store.m[ids[i]]];
        }
      }
      assert ids[..|ids|] == ids;
    }

    method GetActiveByWorkflow(w: string) returns (result: seq<Stream>)
      requires Valid()
      ensures multiset(result) == multiset(Filter((s: Stream) => InWorkflow(s, w) && IsActive(s), store.Values()))
    {
      var all := GetByWorkflow(w);
      result := Filter(IsActive, all);
      FilterTwice((s: Stream) => InWorkflow(s, w), IsActive, (s: Stream) => InWorkflow(s, w) && IsActive(s), all, store.Values());
    }

    method Size() returns (n: nat)
      requires Valid()
      ensures n == |store.order|
    {
      n := |store.order|;
    }
  }
}
