/**
 * saved-values-context.tsx: the list transforms behind saveValue,
 * updateValue, deleteValue, getValue and clearAll. The new id and the
 * creation time (crypto.randomUUID and the clock) are parameters.
 */
module SavedValues {
  import opened Wrappers

  datatype ValueType = Currency | Percentage | Number

  datatype SavedValue = SavedValue(id: string, name: string, value: real, source: string,
                                   valueType: ValueType, createdAt: string)

  /** What the caller supplies: everything except the id and the creation time. */
  datatype ValueData = ValueData(name: string, value: real, source: string, valueType: ValueType)

  /** No id occurs twice. */
  ghost predicate UniqueIds(values: seq<SavedValue>)
  {
    forall i, j :: 0 <= i < j < |values| ==> values[i].id != values[j].id
  }

  /** saveValue: the new entry first, then the old list in order. */
  function SaveValue(saved: seq<SavedValue>, data: ValueData, id: string, createdAt: string): (next: seq<SavedValue>)
    ensures |next| == |saved| + 1
    ensures next[0] == SavedValue(id, data.name, data.value, data.source, data.valueType, createdAt)
    ensures forall i :: 0 <= i < |saved| ==> next[i + 1] == saved[i]
  {
    [SavedValue(id, data.name, data.value, data.source, data.valueType, createdAt)] + saved
  }

  /** A fresh id keeps the ids unique. */
  lemma SaveKeepsIdsUnique(saved: seq<SavedValue>, data: ValueData, id: string, createdAt: string)
    requires UniqueIds(saved)
    requires forall i :: 0 <= i < |saved| ==> saved[i].id != id
    ensures UniqueIds(SaveValue(saved, data, id, createdAt))
  {
    var next := SaveValue(saved, data, id, createdAt);
    forall i, j | 0 <= i < j < |next|
      ensures next[i].id != next[j].id
    {
      assert next[j] == saved[j - 1];
      if i > 0 {
        assert next[i] == saved[i - 1];
      }
    }
  }

  /** updateValue: entries with the id take the new name, when one is given; nothing else changes. */
  function UpdateValue(saved: seq<SavedValue>, id: string, newName: Option<string>): (next: seq<SavedValue>)
    ensures |next| == |saved|
    ensures forall i :: 0 <= i < |next| ==> next[i].(name := saved[i].name) == saved[i]
    ensures forall i :: 0 <= i < |next| ==>
      next[i].name == if saved[i].id == id && newName.Some? then newName.value else saved[i].name
  {
    seq(|saved|, i requires 0 <= i < |saved| =>
      if saved[i].id == id && newName.Some? then saved[i].(name := newName.value) else saved[i])
  }

  /** deleteValue: the entries whose id differs, in their order. */
  function DeleteValue(saved: seq<SavedValue>, id: string): (next: seq<SavedValue>)
    ensures forall i :: 0 <= i < |next| ==> next[i].id != id && next[i] in saved
    ensures forall v :: v in saved && v.id != id ==> v in next
    ensures |next| <= |saved|
  {
    if |saved| == 0 then []
    else
      var rest := DeleteValue(saved[1..], id);
      if saved[0].id == id then rest else [saved[0]] + rest
  }

  /** Deleting works entry by entry: the survivors of a concatenation keep their order. */
  lemma {:induction false} DeleteKeepsOrder(front: seq<SavedValue>, back: seq<SavedValue>, id: string)
    ensures DeleteValue(front + back, id) == DeleteValue(front, id) + DeleteValue(back, id)
    decreases |front|
  {
    if |front| > 0 {
      assert (front + back)[1..] == front[1..] + back;
      DeleteKeepsOrder(front[1..], back, id);
    } else {
      assert front + back == back;
    }
  }

  /** Deleting keeps the ids unique. */
  lemma {:induction false} DeleteKeepsIdsUnique(saved: seq<SavedValue>, id: string)
    requires UniqueIds(saved)
    ensures UniqueIds(DeleteValue(saved, id))
    decreases |saved|
  {
    if |saved| > 0 {
      DeleteKeepsIdsUnique(saved[1..], id);
      var rest := DeleteValue(saved[1..], id);
      forall i | 0 <= i < |rest|
        ensures rest[i].id != saved[0].id
      {
        var k :| 0 <= k < |saved[1..]| && saved[1..][k] == rest[i];
        assert saved[k + 1] == rest[i];
      }
    }
  }

  /** getValue: the first entry with the id. */
  function GetValue(saved: seq<SavedValue>, id: string): (found: Option<SavedValue>)
    ensures found.None? <==> forall i :: 0 <= i < |saved| ==> saved[i].id != id
    ensures found.Some? ==> found.value in saved && found.value.id == id
  {
    if |saved| == 0 then None
    else if saved[0].id == id then Some(saved[0])
    else GetValue(saved[1..], id)
  }

  /** The entry found is the first one with the id. */
  lemma {:induction false} GetValueFirst(saved: seq<SavedValue>, id: string, i: nat)
    requires i < |saved| && saved[i].id == id
    requires forall j :: 0 <= j < i ==> saved[j].id != id
    ensures GetValue(saved, id) == Some(saved[i])
    decreases i
  {
    if i > 0 {
      GetValueFirst(saved[1..], id, i - 1);
    }
  }

  /** A saved value is found under its id. */
  lemma SavedIsFound(saved: seq<SavedValue>, data: ValueData, id: string, createdAt: string)
    ensures GetValue(SaveValue(saved, data, id, createdAt), id) ==
      Some(SavedValue(id, data.name, data.value, data.source, data.valueType, createdAt))
  {
  }

  /** A deleted value is no longer found. */
  lemma DeletedIsGone(saved: seq<SavedValue>, id: string)
    ensures GetValue(DeleteValue(saved, id), id).None?
  {
  }

  /** clearAll: nothing is found any more. */
  function ClearAll(): (cleared: seq<SavedValue>)
    ensures forall id :: GetValue(cleared, id).None?
  {
    []
  }
}
