/** os::waitable::wait_any: waiting for one of several optional objects. */
module Waitables {
  import opened Wire

  const MAXIMUM_WAIT_OBJECTS := 64

  /** An object's kernel handle, and whether it is an async_op, whose callbacks a wait calls. */
  datatype Object = Object(handle: nat, isOp: bool)

  /** None is a null pointer in the caller's array. */
  type Item = Option<Object>

  function NonNull(items: seq<Item>): nat {
    if items == [] then 0 else NonNull(items[..|items| - 1]) + (if items[|items| - 1].Some? then 1 else 0)
  }

  /** The caller's index of the k-th object that is not null. */
  function TrueIndex(items: seq<Item>, k: nat): (i: nat)
    requires k < NonNull(items)
    ensures i < |items| && items[i].Some? && NonNull(items[..i]) == k
  {
    var n := |items| - 1;
    if items[n].Some? && NonNull(items[..n]) == k then n
    else
      var i := TrueIndex(items[..n], k);
      assert items[..n][..i] == items[..i];
      i
  }

  /** What the code's index table holds. */
  function Table(items: seq<Item>): seq<nat> {
    seq(|items|, i requires 0 <= i < |items| => if items[i].Some? then NonNull(items[..i]) else 0)
  }

  predicate NoneNull(items: seq<Item>) { forall item <- items :: item.Some? }

  lemma {:induction false} NonNullBound(items: seq<Item>)
    ensures NonNull(items) <= |items|
    ensures NonNull(items) == |items| <==> NoneNull(items)
  {
    if items != [] {
      var n := |items| - 1;
      NonNullBound(items[..n]);
      assert items == items[..n] + [items[n]];
    }
  }

  lemma {:induction false} NonNullGrows(items: seq<Item>, i: nat, j: nat)
    requires i <= j <= |items|
    ensures NonNull(items[..i]) <= NonNull(items[..j]) <= NonNull(items[..i]) + (j - i)
    decreases j
  {
    if i < j {
      NonNullGrows(items, i, j - 1);
      assert items[..j][..j - 1] == items[..j - 1];
    }
  }

  /** The table entry of the k-th handle is the caller's index of that handle exactly when none
      of the first k + 1 objects is null. */
  lemma ReportedIndex(items: seq<Item>, k: nat)
    requires k < NonNull(items)
    ensures k < |items|
    ensures Table(items)[k] == TrueIndex(items, k) <==> NoneNull(items[..k + 1])
  {
    NonNullBound(items);
    var i := TrueIndex(items, k);
    NonNullBound(items[..k + 1]);
    NonNullBound(items[..k]);
    assert items[..k + 1][..k] == items[..k];
    NonNullBound(items[..i]);
    if NoneNull(items[..k + 1]) {
      assert items[..k + 1][k].Some?;
      assert NoneNull(items[..k]);
      if k < i {
        NonNullGrows(items, k + 1, i);
      }
    }
  }

  /** A null pointer in front of the object that woke the wait: the index reported is its own. */
  lemma WrongIndex(obj: Object)
    ensures NonNull([None, Some(obj)]) == 1
    ensures TrueIndex([None, Some(obj)], 0) == 1 && Table([None, Some(obj)])[0] == 0
  {
    var items: seq<Item> := [None, Some(obj)];
    assert items[..1][..0] == [];
    assert NonNull(items[..1]) == 0;
    assert NonNull(items[..0]) == 0;
  }

  /** The server waits for its read and its write operation, and the read operation exists. */
  lemma ReadWritePair(rop: Object, wop: Item, k: nat)
    requires k < NonNull([Some(rop), wop])
    ensures k < 2
    ensures Table([Some(rop), wop])[k] == TrueIndex([Some(rop), wop], k)
  {
    var items := [Some(rop), wop];
    NonNullBound(items);
    assert items[..1] == [Some(rop)] && items[..2] == items;
    NonNullBound(items[..1]);
    ReportedIndex(items, k);
  }

  // ----- the code

  datatype Wake = Fired(k: nat) | Abandoned(k: nat) | TimedOut | IoCompletion | Failed
  datatype Code = Success | Timeout | Disconnected | Error | InvalidArgument

  predicate Possible(items: seq<Item>, w: Wake) {
    (w.Fired? || w.Abandoned?) ==> w.k < NonNull(items)
  }

  /** Collects the handles of the objects that are not null, and the index table. */
  method BuildTables(items: seq<Item>) returns (handles: array<nat>, idxToTrueIdx: array<nat>, validHandles: nat)
    ensures fresh(handles) && fresh(idxToTrueIdx)
    ensures validHandles == NonNull(items) && idxToTrueIdx[..] == Table(items)
    ensures handles.Length == |items| && validHandles <= |items|
    ensures forall k :: 0 <= k < validHandles ==> handles[k] == items[TrueIndex(items, k)].value.handle
  {
    validHandles := 0;
    handles := new nat[|items|](_ => 0);
    idxToTrueIdx := new nat[|items|](_ => 0);
    var idx := 0;
    while idx < |items|
      invariant 0 <= idx <= |items|
      invariant validHandles == NonNull(items[..idx]) <= idx
      invariant idxToTrueIdx[..idx] == Table(items)[..idx]
      invariant forall i :: idx <= i < |items| ==> idxToTrueIdx[i] == 0
      invariant forall i :: 0 <= i < idx && items[i].Some? ==>
                  NonNull(items[..i]) < validHandles && handles[NonNull(items[..i])] == items[i].value.handle
    {
      var obj := items[idx];
      assert items[..idx + 1][..idx] == items[..idx];
      if obj.Some? {
        handles[validHandles] := obj.value.handle;
        idxToTrueIdx[idx] := validHandles;
        validHandles := validHandles + 1;
      }
      idx := idx + 1;
    }
    assert items[..idx] == items;
  }

  /** wait_any, with the kernel's answers and the time each one took given. A null array and too
      many items throw. called is the index of the object whose callbacks run: the caller's object
      at the reported index, even where that is not the one that woke the wait. */
  method WaitAny(given: Option<seq<Item>>, unset: nat, timeout: int, answers: seq<(Wake, nat)>)
    returns (code: Code, signalledIndex: int, called: Option<nat>)
    requires given.Some? ==> forall a <- answers :: Possible(given.value, a.0)
    requires exists i :: 0 <= i < |answers| && !answers[i].0.IoCompletion?
    ensures code.InvalidArgument? <==> given.None? || |given.value| > MAXIMUM_WAIT_OBJECTS
    ensures !code.Success? ==> called.None?
    ensures !code.InvalidArgument? ==>
              exists i :: 0 <= i < |answers| &&
                (forall j :: 0 <= j < i ==> answers[j].0.IoCompletion?) &&
                match answers[i].0
                case Fired(k) =>
                  code == Success && k < NonNull(given.value) && k < |given.value| &&
                  0 <= signalledIndex < |given.value| &&
                  (signalledIndex == TrueIndex(given.value, k) <==> NoneNull(given.value[..k + 1])) &&
                  (NoneNull(given.value[..k + 1]) ==> signalledIndex == k) &&
                  called == (if given.value[signalledIndex].Some? && given.value[signalledIndex].value.isOp
                             then Some(signalledIndex) else None)
                case Abandoned(k) =>
                  code == Disconnected && k < NonNull(given.value) && k < |given.value| &&
                  (signalledIndex == TrueIndex(given.value, k) <==> NoneNull(given.value[..k + 1]))
                case TimedOut => code == Timeout && signalledIndex == -1
                case Failed => code == Error && signalledIndex == unset
                case IoCompletion => false
  {
    signalledIndex, called := unset, None;
    if given.None? {
      return InvalidArgument, signalledIndex, called;
    }
    var items := given.value;
    if |items| > MAXIMUM_WAIT_OBJECTS {
      return InvalidArgument, signalledIndex, called;
    }
    var handles, idxToTrueIdx, validHandles := BuildTables(items);
    NonNullBound(items);
    var msTimeout := timeout;
    var i := 0;
    while true
      invariant 0 <= i <= |answers| && forall j :: 0 <= j < i ==> answers[j].0.IoCompletion?
      decreases |answers| - i
    {
      if msTimeout < 0 {
        msTimeout := 0;
      }
      var answer := answers[i];
      match answer.0
      case Fired(k) =>
        Reported(items, k);
        signalledIndex := idxToTrueIdx[..][k];
        if items[signalledIndex].Some? && items[signalledIndex].value.isOp {
          called := Some(signalledIndex);
        }
        return Success, signalledIndex, called;
      case TimedOut =>
        return Timeout, -1, called;
      case Abandoned(k) =>
        Reported(items, k);
        return Disconnected, idxToTrueIdx[..][k], called;
      case IoCompletion =>
        msTimeout := msTimeout - answer.1;
        i := i + 1;
      case Failed =>
        return Error, signalledIndex, called;
    }
  }

  /** The table entry of a compacted position is the index of some item; it is the position itself
      when no item up to there is null. */
  lemma Reported(items: seq<Item>, k: nat)
    requires k < NonNull(items)
    ensures k < |items| && Table(items)[k] < |items|
    ensures Table(items)[k] == TrueIndex(items, k) <==> NoneNull(items[..k + 1])
    ensures NoneNull(items[..k + 1]) ==> Table(items)[k] == k
  {
    NonNullBound(items);
    ReportedIndex(items, k);
    NonNullBound(items[..k]);
    if NoneNull(items[..k + 1]) {
      assert items[..k + 1][k].Some?;
      assert forall item <- items[..k] :: item in items[..k + 1];
      assert NoneNull(items[..k]);
    }
  }

  /** The server's two operations: the wait reports the one whose handle fired, and runs its
      callbacks. */
  method WaitPair(rop: nat, wop: Option<nat>, k: nat) returns (index: int, called: Option<nat>)
    requires k < if wop.Some? then 2 else 1
    ensures index == k && called == Some(k)
  {
    var write: Item := if wop.Some? then Some(Object(wop.value, true)) else None;
    var items: seq<Item> := [Some(Object(rop, true)), write];
    PairCount(Object(rop, true), write);
    assert Possible(items, Fired(k));
    var answers := [(Fired(k), 0)];
    assert !answers[0].0.IoCompletion?;
    var code;
    code, index, called := WaitAny(Some(items), 0, 20, answers);
    assert items[..1] == [items[0]] && items[..2] == items;
    assert NoneNull(items[..k + 1]);
  }

  lemma PairCount(rop: Object, wop: Item)
    ensures NonNull([Some(rop), wop]) == if wop.Some? then 2 else 1
  {
    var items := [Some(rop), wop];
    assert items[..1] == [Some(rop)];
    assert NonNull([Some(rop)]) == 1 by { assert [Some(rop)][..0] == []; }
  }
}
