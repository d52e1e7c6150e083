/**
 * The settlements sub-collection of a group: one document per settled obligation key.
 * Ticking a row writes its key, unticking deletes it, and resetAll deletes every document.
 * The balances screen rereads this key set and recomputes its rows from it.
 */
module Settlements {
  import opened Models
  import opened BalanceRows

  /** The key set after toggling `item`, whose `settled` flag already holds the new state. */
  function AfterToggle(keys: set<string>, item: BalanceItem): (r: set<string>)
    ensures item.settled <==> item.id in r
    ensures forall k :: k != item.id ==> (k in r <==> k in keys)
  {
    if item.settled then keys + {item.id} else keys - {item.id}
  }

  /** Toggling twice with the same flag is the same as toggling once. */
  lemma ToggleIdempotent(keys: set<string>, item: BalanceItem)
    ensures AfterToggle(AfterToggle(keys, item), item) == AfterToggle(keys, item)
  {
    var once := AfterToggle(keys, item);
    assert forall k :: k in AfterToggle(once, item) <==> k in once;
  }

  /** Marking an unsettled obligation and then unmarking it restores the key set. */
  lemma MarkThenUnmark(keys: set<string>, item: BalanceItem)
    requires item.id !in keys
    ensures AfterToggle(AfterToggle(keys, item.(settled := true)), item.(settled := false)) == keys
  {
    var marked := AfterToggle(keys, item.(settled := true));
    assert forall k :: k in AfterToggle(marked, item.(settled := false)) <==> k in keys;
  }

  /**
   * After a toggle the recomputed rows are the old rows in the same order; exactly the rows
   * carrying the toggled key take the new flag and every other row keeps its flag.
   */
  lemma ToggleShowsInRows(es: seq<Expense>, viewer: string, names: map<string, string>,
                          keys: set<string>, item: BalanceItem)
    ensures var before := UserBalances(es, viewer, names, keys);
            var after := UserBalances(es, viewer, names, AfterToggle(keys, item));
            && |after| == |before|
            && forall k :: 0 <= k < |before| ==>
                 && after[k].(settled := before[k].settled) == before[k]
                 && after[k].settled == (if before[k].id == item.id then item.settled else before[k].settled)
  {
    var before := UserBalances(es, viewer, names, keys);
    var s2 := AfterToggle(keys, item);
    SettledKeysOnlyAffectFlags(es, viewer, names, keys, s2);
    forall k | 0 <= k < |before|
      ensures before[k].settled == (before[k].id in keys)
    {
      assert before[k] in before;
      RowsAreObligations(es, viewer, names, keys, before[k]);
    }
  }

  /** Once the collection is empty, every recomputed row is unsettled. */
  lemma ResetLeavesNothingSettled(es: seq<Expense>, viewer: string, names: map<string, string>)
    ensures forall k :: 0 <= k < |UserBalances(es, viewer, names, {})| ==>
              !UserBalances(es, viewer, names, {})[k].settled
  {
    var rows := UserBalances(es, viewer, names, {});
    forall k | 0 <= k < |rows|
      ensures !rows[k].settled
    {
      assert rows[k] in rows;
      RowsAreObligations(es, viewer, names, {}, rows[k]);
    }
  }

  /** The stored documents of one group's settlements collection, by document id. */
  class SettlementStore {
    var keys: set<string>

    constructor ()
      ensures keys == {}
    {
      keys := {};
    }

    /** `document(id).set({settled: true})`. */
    method Put(id: string)
      modifies this
      ensures keys == old(keys) + {id}
    {
      keys := keys + {id};
    }

    /** `document(id).delete()`; deleting a missing document is not an error. */
    method Delete(id: string)
      modifies this
      ensures keys == old(keys) - {id}
    {
      keys := keys - {id};
    }

    /** toggleSettlement: write the key when the item is now settled, delete it otherwise. */
    method ToggleSettlement(item: BalanceItem)
      modifies this
      ensures keys == AfterToggle(old(keys), item)
    {
      if item.settled {
        Put(item.id);
      } else {
        Delete(item.id);
      }
    }

    /** resetAll: read the collection once, then delete each document of that snapshot. */
    method ResetAll()
      modifies this
      ensures keys == {}
    {
      var snapshot := keys;
      while snapshot != {}
        invariant keys == snapshot
        decreases |snapshot|
      {
        var id :| id in snapshot;
        Delete(id);
        snapshot := snapshot - {id};
      }
    }
  }
}
