/**
 * The pure part of sendReminders: the unsettled credit rows are grouped by debtor (first
 * appearance order, as groupBy does) and, per debtor, their raw amounts are summed per
 * currency. Looking up the debtor's e-mail and sending the message are not modelled.
 */
module Reminders {
  import opened FieldOps
  import opened BalanceRows

  /** `balances.filter { type == "credit" && !settled }`. */
  function CreditItems(rows: seq<BalanceItem>): (r: seq<BalanceItem>)
    ensures forall x :: x in r <==> x in rows && x.kind == Credit && !x.settled
    ensures |r| <= |rows|
  {
    if rows == [] then []
    else
      var last := rows[|rows| - 1];
      CreditItems(rows[..|rows| - 1]) + (if last.kind == Credit && !last.settled then [last] else [])
  }

  /** The counterparties named by `items`. */
  function UserIds(items: seq<BalanceItem>): set<string> {
    set k | 0 <= k < |items| :: items[k].userId
  }

  lemma UserIdsSnoc(items: seq<BalanceItem>)
    requires items != []
    ensures UserIds(items) == UserIds(items[..|items| - 1]) + {items[|items| - 1].userId}
  {
    var init := items[..|items| - 1];
    forall u | u in UserIds(items) ensures u in UserIds(init) + {items[|items| - 1].userId} {
      var k :| 0 <= k < |items| && items[k].userId == u;
      if k < |init| { assert init[k] == items[k]; }
    }
    forall u | u in UserIds(init) ensures u in UserIds(items) {
      var k :| 0 <= k < |init| && init[k].userId == u;
      assert items[k] == init[k];
    }
  }

  /** The keys of `groupBy { userId }`: each debtor once, in order of first appearance. */
  function Debtors(items: seq<BalanceItem>): (r: seq<string>)
    ensures forall u :: u in r <==> u in UserIds(items)
    ensures NoDuplicates(r)
  {
    if items == [] then []
    else
      var u := items[|items| - 1].userId;
      var d := Debtors(items[..|items| - 1]);
      UserIdsSnoc(items);
      if u in d then d else d + [u]
  }

  /** The value of `groupBy` for one debtor: that debtor's items, in their original order. */
  function ItemsOf(items: seq<BalanceItem>, uid: string): (r: seq<BalanceItem>)
    ensures forall x :: x in r <==> x in items && x.userId == uid
    ensures |r| <= |items|
  {
    if items == [] then []
    else
      var last := items[|items| - 1];
      ItemsOf(items[..|items| - 1], uid) + (if last.userId == uid then [last] else [])
  }

  /** The currencies used by `items`. */
  function Currencies(items: seq<BalanceItem>): set<string> {
    set k | 0 <= k < |items| :: items[k].currencyCode
  }

  lemma CurrenciesSnoc(items: seq<BalanceItem>)
    requires items != []
    ensures Currencies(items) == Currencies(items[..|items| - 1]) + {items[|items| - 1].currencyCode}
  {
    var init := items[..|items| - 1];
    forall c | c in Currencies(items) ensures c in Currencies(init) + {items[|items| - 1].currencyCode} {
      var k :| 0 <= k < |items| && items[k].currencyCode == c;
      if k < |init| { assert init[k] == items[k]; }
    }
    forall c | c in Currencies(init) ensures c in Currencies(items) {
      var k :| 0 <= k < |init| && init[k].currencyCode == c;
      assert items[k] == init[k];
    }
  }

  /** Reference definition: the sum of the raw amounts of the items in currency `c`. */
  function TotalIn(items: seq<BalanceItem>, c: string): real {
    if items == [] then 0.0
    else
      var last := items[|items| - 1];
      TotalIn(items[..|items| - 1], c) + (if last.currencyCode == c then last.amountRaw else 0.0)
  }

  /** The map `totalByCurrencyMap` after the accumulation loop has seen `items`. */
  function Totals(items: seq<BalanceItem>): map<string, real> {
    if items == [] then map[]
    else
      var last := items[|items| - 1];
      var m := Totals(items[..|items| - 1]);
      m[last.currencyCode := (if last.currencyCode in m then m[last.currencyCode] else 0.0) + last.amountRaw]
  }

  /** A currency nobody used sums to zero. */
  lemma {:induction false} TotalInAbsent(items: seq<BalanceItem>, c: string)
    requires c !in Currencies(items)
    ensures TotalIn(items, c) == 0.0
  {
    if items != [] {
      CurrenciesSnoc(items);
      TotalInAbsent(items[..|items| - 1], c);
    }
  }

  /** There is a total for each currency used, and it is the sum of that currency's amounts. */
  lemma {:induction false} TotalsAreSums(items: seq<BalanceItem>)
    ensures Totals(items).Keys == Currencies(items)
    ensures forall c :: c in Totals(items) ==> Totals(items)[c] == TotalIn(items, c)
  {
    if items != [] {
      var init := items[..|items| - 1];
      TotalsAreSums(init);
      CurrenciesSnoc(items);
      forall c | c in Totals(items)
        ensures Totals(items)[c] == TotalIn(items, c)
      {
        if c !in Totals(init) {
          TotalInAbsent(init, c);
        }
      }
    }
  }

  /** One more item adds its amount to its currency's total. */
  lemma TotalsStep(items: seq<BalanceItem>, i: int)
    requires 0 <= i < |items|
    ensures var m, it := Totals(items[..i]), items[i];
            Totals(items[..i + 1])
              == m[it.currencyCode := (if it.currencyCode in m then m[it.currencyCode] else 0.0) + it.amountRaw]
  {
    assert items[..i + 1][..i] == items[..i];
  }

  /** The accumulation loop over one debtor's items. */
  method CurrencyTotals(items: seq<BalanceItem>) returns (totalByCurrency: map<string, real>)
    ensures totalByCurrency == Totals(items)
  {
    totalByCurrency := map[];
    var i := 0;
    while i < |items|
      invariant 0 <= i <= |items|
      invariant totalByCurrency == Totals(items[..i])
    {
      var it := items[i];
      TotalsStep(items, i);
      var sofar := if it.currencyCode in totalByCurrency then totalByCurrency[it.currencyCode] else 0.0;
      totalByCurrency := totalByCurrency[it.currencyCode := sofar + it.amountRaw];
      i := i + 1;
    }
    assert totalByCurrency == Totals(items) by {
      assert items[..|items|] == items;
    }
  }

  /** One reminder: the debtor, what they owe and the per-currency totals. */
  datatype Reminder = Reminder(debtorUid: string, items: seq<BalanceItem>, totals: map<string, real>)

  datatype ReminderPlan = NothingToRemind | Remind(reminders: seq<Reminder>)

  function ReminderFor(credits: seq<BalanceItem>, debtor: string): Reminder {
    var items := ItemsOf(credits, debtor);
    Reminder(debtor, items, Totals(items))
  }

  /** What sendReminders prepares before any network call. */
  function PlanReminders(balances: seq<BalanceItem>): (p: ReminderPlan)
    ensures p.NothingToRemind? <==> CreditItems(balances) == []
  {
    var credits := CreditItems(balances);
    if credits == [] then NothingToRemind
    else
      var ds := Debtors(credits);
      Remind(seq(|ds|, k requires 0 <= k < |ds| => ReminderFor(credits, ds[k])))
  }

  /** The reminders go to distinct debtors. */
  lemma PlanDebtorsDistinct(balances: seq<BalanceItem>)
    requires PlanReminders(balances).Remind?
    ensures var rs := PlanReminders(balances).reminders;
            forall i, j :: 0 <= i < j < |rs| ==> rs[i].debtorUid != rs[j].debtorUid
  {
    var ds := Debtors(CreditItems(balances));
    var rs := PlanReminders(balances).reminders;
    forall i, j | 0 <= i < j < |rs| ensures rs[i].debtorUid != rs[j].debtorUid {
      assert rs[i].debtorUid == ds[i] && rs[j].debtorUid == ds[j];
    }
  }

  /** Every unsettled credit row lands in the reminder of its debtor. */
  lemma PlanCoversCredits(balances: seq<BalanceItem>, x: BalanceItem)
    requires x in balances && x.kind == Credit && !x.settled
    ensures PlanReminders(balances).Remind?
    ensures var rs := PlanReminders(balances).reminders;
            exists i :: 0 <= i < |rs| && rs[i].debtorUid == x.userId && x in rs[i].items
  {
    var credits := CreditItems(balances);
    assert x in credits;
    var k :| 0 <= k < |credits| && credits[k] == x;
    var ds := Debtors(credits);
    assert x.userId in UserIds(credits);
    var i :| 0 <= i < |ds| && ds[i] == x.userId;
    var rs := PlanReminders(balances).reminders;
    assert rs[i] == ReminderFor(credits, ds[i]);
  }

  /**
   * Each reminder is non-empty, holds only unsettled credit rows of its debtor, and its
   * totals are the per-currency sums of those rows.
   */
  lemma PlanGroupsExact(balances: seq<BalanceItem>, i: int)
    requires PlanReminders(balances).Remind? && 0 <= i < |PlanReminders(balances).reminders|
    ensures var r := PlanReminders(balances).reminders[i];
            && r.items != []
            && (forall x :: x in r.items ==>
                  x in balances && x.kind == Credit && !x.settled && x.userId == r.debtorUid)
            && r.totals.Keys == Currencies(r.items)
            && (forall c :: c in r.totals ==> r.totals[c] == TotalIn(r.items, c))
  {
    var credits := CreditItems(balances);
    var ds := Debtors(credits);
    var r := PlanReminders(balances).reminders[i];
    assert r == ReminderFor(credits, ds[i]);
    assert ds[i] in UserIds(credits);
    var k :| 0 <= k < |credits| && credits[k].userId == ds[i];
    assert credits[k] in r.items;
    TotalsAreSums(r.items);
  }
}
