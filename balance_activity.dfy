/**
 * The state of the balances screen: the row list it shows. The settlements listener feeds
 * it the current key set, which recomputes the rows; the user can hide the settled rows and
 * prepare reminders for the unsettled credits.
 */
module BalanceActivity {
  import opened Wrappers
  import opened Models
  import opened BalanceRows
  import opened Reminders

  /** What the settlements listener delivers: an error, or a snapshot that may be null. */
  datatype SettlementsEvent = ListenerError | Snapshot(documentIds: Option<set<string>>)

  class BalanceScreen {
    var balances: seq<BalanceItem>
    var lastSettledKeys: set<string>

    constructor ()
      ensures balances == [] && lastSettledKeys == {}
    {
      balances := [];
      lastSettledKeys := {};
    }

    /** calculateUserBalances: the list is replaced wholesale by the freshly computed rows. */
    method CalculateUserBalances(currentUid: string, expenses: seq<Expense>, names: map<string, string>,
                                 settledKeys: set<string>)
      modifies this
      ensures balances == UserBalances(expenses, currentUid, names, settledKeys)
      ensures lastSettledKeys == old(lastSettledKeys)
    {
      var temp := ComputeRows(currentUid, expenses, names, settledKeys);
      balances := temp;
    }

    /**
     * The settlements listener: an error changes nothing; otherwise the key set is the
     * snapshot's document ids (empty for a null snapshot) and the rows are recomputed.
     */
    method OnSettlementsEvent(currentUid: string, expenses: seq<Expense>, names: map<string, string>,
                              event: SettlementsEvent)
      modifies this
      ensures event.ListenerError? ==> balances == old(balances) && lastSettledKeys == old(lastSettledKeys)
      ensures event.Snapshot? ==>
                && lastSettledKeys == event.documentIds.GetOr({})
                && balances == UserBalances(expenses, currentUid, names, lastSettledKeys)
    {
      if event.ListenerError? {
        return;
      }
      var settledKeys := event.documentIds.GetOr({});
      lastSettledKeys := settledKeys;
      CalculateUserBalances(currentUid, expenses, names, settledKeys);
    }

    /** removeSettled: keep exactly the unsettled rows, in their relative order. */
    method RemoveSettled()
      modifies this
      ensures balances == Unsettled(old(balances))
      ensures lastSettledKeys == old(lastSettledKeys)
    {
      balances := Unsettled(balances);
    }

    /**
     * The preparation done by sendReminders before any e-mail is sent: one reminder per
     * debtor of an unsettled credit row, with that debtor's rows and per-currency totals.
     */
    method SendReminders() returns (plan: ReminderPlan)
      ensures plan == PlanReminders(balances)
    {
      var creditItems := CreditItems(balances);
      if creditItems == [] {
        return NothingToRemind;
      }
      var grouped := Debtors(creditItems);
      var reminders := ReminderList(creditItems, grouped);
      plan := Remind(reminders);
    }
  }

  /** The loop of sendReminders: per debtor, that debtor's credit rows and their per-currency totals. */
  method ReminderList(creditItems: seq<BalanceItem>, grouped: seq<string>) returns (reminders: seq<Reminder>)
    ensures reminders == seq(|grouped|, k requires 0 <= k < |grouped| => ReminderFor(creditItems, grouped[k]))
  {
    reminders := [];
    var i := 0;
    while i < |grouped|
      invariant 0 <= i <= |grouped|
      invariant |reminders| == i
      invariant forall k :: 0 <= k < i ==> reminders[k] == ReminderFor(creditItems, grouped[k])
    {
      var items := ItemsOf(creditItems, grouped[i]);
      var totalByCurrency := CurrencyTotals(items);
      reminders := reminders + [Reminder(grouped[i], items, totalByCurrency)];
      i := i + 1;
    }
  }

  /** After hiding the settled rows, no shown row is settled and every unsettled row is still shown. */
  lemma RemoveSettledKeepsUnsettled(rows: seq<BalanceItem>)
    ensures forall k :: 0 <= k < |Unsettled(rows)| ==> !Unsettled(rows)[k].settled
    ensures forall x :: x in rows && !x.settled ==> x in Unsettled(rows)
  {
    var r := Unsettled(rows);
    UnsettledMembers(rows);
    forall k | 0 <= k < |r| ensures !r[k].settled {
      assert r[k] in r;
    }
  }
}
