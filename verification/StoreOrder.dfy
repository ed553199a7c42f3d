/** What each operation of the store leaves in it, and the order in which the store lists its streams. */
module StoreOrder {
  import opened Text
  import opened Collections
  import opened StateStore
  import opened PersistentStore

  // ---------------------------------------------------------------------------------------
  // One operation
  // ---------------------------------------------------------------------------------------

  /** The id that an operation writes, if it writes one. */
  function Writes(op: StoreOp): Option<string> {
    match op
    case OpSet(id, _) => Some(id)
    case OpDelete(id) => Some(id)
    case OpBind(id, _) => Some(id)
    case OpRecord(_) => None
    case OpProject(id, _) => Some(id)
  }

  /** An operation writes what it is given and leaves every other stream alone: setting stores the state, deleting removes
      it, binding changes the workflow id alone (empty ones count as absent), a tick's assignment the projection alone. */
  lemma OperationWrites(d: Durable, op: StoreOp, id: string)
    requires IndexAgrees(d.mem)
    ensures var m, m' := d.mem.store.m, Do(d, op).mem.store.m;
      && (Writes(op) != Some(id) ==> (id in m' <==> id in m) && (id in m ==> m'[id] == m[id]))
      && (op.OpSet? && op.id == id ==> id in m' && m'[id] == op.state)
      && (op.OpDelete? && op.id == id ==> id !in m')
      && (op.OpBind? && op.id == id ==>
            (id in m' <==> id in m) &&
            (id in m ==> m'[id] == m[id].(workflowId := if op.workflowId == Some("") then None else op.workflowId)))
      && (op.OpProject? && op.id == id ==> (id in m' <==> id in m) && (id in m ==> m'[id] == m[id].(projected := op.projected)))
  {
  }

  /** An id present keeps its place, a new one comes last, and a deleted one leaves the others in their order. */
  lemma OperationOrders(d: Durable, op: StoreOp)
    requires IndexAgrees(d.mem)
    ensures var order, order' := d.mem.store.order, Do(d, op).mem.store.order;
      if op.OpSet? && op.id !in order then order' == order + [op.id]
      else if op.OpDelete? then order' == Drop(order, op.id)
      else order' == order
  {
    if op.OpDelete? && op.id !in d.mem.store.order {
      DropsNothing(d.mem.store.order, op.id);
    }
  }

  lemma {:induction false} DropsNothing(s: seq<string>, x: string)
    requires x !in s
    ensures Drop(s, x) == s
  {
    if |s| == 0 {
    } else {
      DropsNothing(s[1..], x);
      assert s == [s[0]] + s[1..];
    }
  }

  // ---------------------------------------------------------------------------------------
  // Whole runs
  // ---------------------------------------------------------------------------------------

  function Place(s: seq<string>, x: string): nat {
    if |s| == 0 || s[0] == x then 0 else 1 + Place(s[1..], x)
  }

  lemma {:induction false} PlaceOf(s: seq<string>, i: nat)
    requires NoDup(s) && i < |s|
    ensures Place(s, s[i]) == i
  {
    if i == 0 {
    } else {
      assert s[0] != s[i] && s[1..][i - 1] == s[i];
      PlaceOf(s[1..], i - 1);
    }
  }

  /** When the id was first stored since it was last absent: the number of the operation, or before all of them in the
      order of the streams that were there from the start. */
  function Born(d: Durable, ops: seq<StoreOp>, id: string): int
    requires IndexAgrees(d.mem)
  {
    if |ops| == 0 then Place(d.mem.store.order, id) - |d.mem.store.order|
    else if id in DoAll(d, ops[..|ops| - 1]).mem.store.m then Born(d, ops[..|ops| - 1], id)
    else |ops| - 1
  }

  ghost predicate BornEarlier(d: Durable, ops: seq<StoreOp>, x: string, y: string)
    requires IndexAgrees(d.mem)
  {
    Born(d, ops, x) < Born(d, ops, y)
  }

  ghost predicate InBirthOrder(d: Durable, ops: seq<StoreOp>, order: seq<string>)
    requires IndexAgrees(d.mem)
  {
    forall i, j | 0 <= i < j < |order| :: BornEarlier(d, ops, order[i], order[j])
  }

  lemma {:induction false} BornBefore(d: Durable, ops: seq<StoreOp>, id: string)
    requires IndexAgrees(d.mem) && id in DoAll(d, ops).mem.store.m
    ensures Born(d, ops, id) < |ops|
  {
    if |ops| == 0 {
      assert id in d.mem.store.order;
      var i :| 0 <= i < |d.mem.store.order| && d.mem.store.order[i] == id;
      PlaceOf(d.mem.store.order, i);
    } else if id in DoAll(d, ops[..|ops| - 1]).mem.store.m {
      BornBefore(d, ops[..|ops| - 1], id);
    }
  }

  lemma {:induction false} DropInBirthOrder(d: Durable, ops: seq<StoreOp>, order: seq<string>, id: string)
    requires IndexAgrees(d.mem) && InBirthOrder(d, ops, order)
    ensures InBirthOrder(d, ops, Drop(order, id))
  {
    if |order| == 0 {
    } else {
      var rest := order[1..];
      forall i, j | 0 <= i < j < |rest| ensures BornEarlier(d, ops, rest[i], rest[j]) {
        assert BornEarlier(d, ops, order[i + 1], order[j + 1]);
      }
      DropInBirthOrder(d, ops, rest, id);
      var kept := Drop(rest, id);
      forall j | 0 <= j < |kept| ensures BornEarlier(d, ops, order[0], kept[j]) {
        assert kept[j] in kept;
        var k :| 0 <= k < |rest| && rest[k] == kept[j];
        assert BornEarlier(d, ops, order[0], order[k + 1]);
      }
    }
  }

  lemma SnocInBirthOrder(d: Durable, ops: seq<StoreOp>, order: seq<string>, id: string)
    requires IndexAgrees(d.mem) && InBirthOrder(d, ops, order)
    requires forall x | x in order :: BornEarlier(d, ops, x, id)
    ensures InBirthOrder(d, ops, order + [id])
  {
    var all := order + [id];
    forall i, j | 0 <= i < j < |all| ensures BornEarlier(d, ops, all[i], all[j]) {
      if j < |order| {
        assert BornEarlier(d, ops, order[i], order[j]);
      } else {
        assert order[i] in order;
      }
    }
  }

  /** An operation does not change when those present were born. */
  lemma OrderCarriesOver(d: Durable, ops: seq<StoreOp>)
    requires IndexAgrees(d.mem) && |ops| > 0
    requires InBirthOrder(d, ops[..|ops| - 1], DoAll(d, ops[..|ops| - 1]).mem.store.order)
    ensures InBirthOrder(d, ops, DoAll(d, ops[..|ops| - 1]).mem.store.order)
  {
    var front := ops[..|ops| - 1];
    var order := DoAll(d, front).mem.store.order;
    forall i, j | 0 <= i < j < |order| ensures BornEarlier(d, ops, order[i], order[j]) {
      assert order[i] in order && order[j] in order;
      assert BornEarlier(d, front, order[i], order[j]);
    }
  }

  /** After any run of operations the store lists its streams, and so does every snapshot and every `getAll`, in the
      order in which they were first stored since they were last absent. */
  lemma {:induction false} ListedByBirth(d: Durable, ops: seq<StoreOp>)
    requires IndexAgrees(d.mem)
    ensures InBirthOrder(d, ops, DoAll(d, ops).mem.store.order)
  {
    if |ops| == 0 {
      InitialOrder(d);
    } else {
      var front, op := ops[..|ops| - 1], ops[|ops| - 1];
      var before := DoAll(d, front);
      ListedByBirth(d, front);
      OrderCarriesOver(d, ops);
      OperationOrders(before, op);
      if op.OpDelete? {
        DropInBirthOrder(d, ops, before.mem.store.order, op.id);
      } else if op.OpSet? && op.id !in before.mem.store.order {
        NewbornIsLast(d, ops, op.id);
        SnocInBirthOrder(d, ops, before.mem.store.order, op.id);
      }
    }
  }

  lemma InitialOrder(d: Durable)
    requires IndexAgrees(d.mem)
    ensures InBirthOrder(d, [], d.mem.store.order)
  {
    var order := d.mem.store.order;
    forall i, j | 0 <= i < j < |order| ensures BornEarlier(d, [], order[i], order[j]) {
      PlaceOf(order, i);
      PlaceOf(order, j);
    }
  }

  lemma NewbornIsLast(d: Durable, ops: seq<StoreOp>, id: string)
    requires IndexAgrees(d.mem) && |ops| > 0
    requires var front := ops[..|ops| - 1]; id !in DoAll(d, front).mem.store.m
    ensures forall x | x in DoAll(d, ops[..|ops| - 1]).mem.store.order :: BornEarlier(d, ops, x, id)
  {
    var front := ops[..|ops| - 1];
    forall x | x in DoAll(d, front).mem.store.order ensures BornEarlier(d, ops, x, id) {
      BornBefore(d, front, x);
    }
  }
}
