/**
 * The debt/credit rows the balances screen shows to one user: for every expense (in
 * `createdAt` order) and every participant slot other than the payer, one row when the
 * viewer is that participant ("debt") or the payer ("credit").
 */
module BalanceRows {
  import opened Models

  datatype Kind = Debt | Credit

  /** One debt or credit line; `userId` is the other person (the payer of a debt, the debtor of a credit). */
  datatype BalanceItem = BalanceItem(
    id: string,
    expenseTitle: string,
    name: string,
    userId: string,
    amountInGroupCurrency: real,
    amountRaw: real,
    currencyCode: string,
    kind: Kind,
    settled: bool)

  /** The persisted identity of an obligation: "<expenseId>_<debtorUid>_<payerUid>". */
  function ObligationKey(expenseId: string, debtorUid: string, payerUid: string): string {
    expenseId + "_" + debtorUid + "_" + payerUid
  }

  /** `names[uid] ?: uid`. */
  function NameOf(names: map<string, string>, uid: string): string {
    if uid in names then names[uid] else uid
  }

  /** Equal split of the raw amount over all participant slots (the payer and duplicates included). */
  function ShareRaw(e: Expense): real {
    if |e.participants| > 0 then e.amountRaw / (|e.participants| as real) else 0.0
  }

  function ShareConverted(e: Expense): real {
    if |e.participants| > 0 then e.amountInGroupCurrency / (|e.participants| as real) else 0.0
  }

  /** The row (none or one) that participant slot `p` of `e` contributes for `viewer`. */
  function ParticipantRow(e: Expense, p: string, viewer: string, names: map<string, string>,
                          settled: set<string>): seq<BalanceItem>
  {
    var key := ObligationKey(e.id, p, e.payerUid);
    if p == e.payerUid then []
    else if p == viewer then
      [BalanceItem(key, e.title, NameOf(names, e.payerUid), e.payerUid, ShareConverted(e),
                   ShareRaw(e), e.currencyCode, Debt, key in settled)]
    else if e.payerUid == viewer then
      [BalanceItem(key, e.title, NameOf(names, p), p, ShareConverted(e),
                   ShareRaw(e), e.currencyCode, Credit, key in settled)]
    else []
  }

  /** Rows for the participant slots `ps` of `e`, in slot order. */
  function ParticipantRows(e: Expense, ps: seq<string>, viewer: string, names: map<string, string>,
                           settled: set<string>): seq<BalanceItem>
  {
    if ps == [] then []
    else ParticipantRows(e, ps[..|ps| - 1], viewer, names, settled)
         + ParticipantRow(e, ps[|ps| - 1], viewer, names, settled)
  }

  function ExpenseRows(e: Expense, viewer: string, names: map<string, string>,
                       settled: set<string>): seq<BalanceItem>
  {
    ParticipantRows(e, e.participants, viewer, names, settled)
  }

  /** All rows for `viewer`: expense order, then participant order. */
  function UserBalances(es: seq<Expense>, viewer: string, names: map<string, string>,
                        settled: set<string>): seq<BalanceItem>
  {
    if es == [] then []
    else UserBalances(es[..|es| - 1], viewer, names, settled)
         + ExpenseRows(es[|es| - 1], viewer, names, settled)
  }

  /**
   * What a row derived from expense `e` must be: an equal share of `e` in both currencies,
   * settled exactly when its key is a settled key, and either the viewer's debt to the payer
   * or the payer-viewer's credit against another participant, keyed by
   * (expense, debtor, payer), never with the viewer as counterparty.
   */
  ghost predicate ObligationRow(e: Expense, viewer: string, names: map<string, string>,
                                settled: set<string>, r: BalanceItem)
  {
    && |e.participants| > 0
    && r.expenseTitle == e.title
    && r.currencyCode == e.currencyCode
    && r.amountRaw == e.amountRaw / (|e.participants| as real)
    && r.amountInGroupCurrency == e.amountInGroupCurrency / (|e.participants| as real)
    && r.settled == (r.id in settled)
    && r.name == NameOf(names, r.userId)
    && r.userId != viewer
    && match r.kind
       case Debt =>
         && viewer in e.participants && viewer != e.payerUid && r.userId == e.payerUid
         && r.id == ObligationKey(e.id, viewer, e.payerUid)
       case Credit =>
         && e.payerUid == viewer && r.userId in e.participants
         && r.id == ObligationKey(e.id, r.userId, viewer)
  }

  /**
   * The loop of calculateUserBalances: builds the row list expense by expense and
   * participant by participant, skipping the payer's own slot.
   */
  method ComputeRows(currentUid: string, expenses: seq<Expense>, names: map<string, string>,
                     settledKeys: set<string>) returns (temp: seq<BalanceItem>)
    ensures temp == UserBalances(expenses, currentUid, names, settledKeys)
  {
    temp := [];
    var i := 0;
    while i < |expenses|
      invariant 0 <= i <= |expenses|
      invariant temp == UserBalances(expenses[..i], currentUid, names, settledKeys)
    {
      temp := AppendExpenseRows(temp, expenses[i], currentUid, names, settledKeys);
      assert expenses[..i + 1][..i] == expenses[..i];
      i := i + 1;
    }
    assert expenses[..|expenses|] == expenses;
  }

  /** The inner loop over the participants of one expense `e`, appending to `temp`. */
  method AppendExpenseRows(temp0: seq<BalanceItem>, e: Expense, currentUid: string,
                           names: map<string, string>, settledKeys: set<string>)
    returns (temp: seq<BalanceItem>)
    ensures temp == temp0 + ExpenseRows(e, currentUid, names, settledKeys)
  {
    temp := temp0;
    var shareRon := ShareConverted(e);
    var shareRaw := ShareRaw(e);
    var j := 0;
    while j < |e.participants|
      invariant 0 <= j <= |e.participants|
      invariant temp == temp0 + ParticipantRows(e, e.participants[..j], currentUid, names, settledKeys)
    {
      var row := SlotRow(e, e.participants[j], currentUid, names, settledKeys, shareRon, shareRaw);
      AppendSlotStep(temp0, temp, e, j, currentUid, names, settledKeys);
      temp := temp + row;
      j := j + 1;
    }
    assert e.participants[..|e.participants|] == e.participants;
  }

  /** Appending the row of slot `j` extends the rows of the first `j` slots by one slot. */
  lemma AppendSlotStep(temp0: seq<BalanceItem>, temp: seq<BalanceItem>, e: Expense, j: int,
                       viewer: string, names: map<string, string>, settled: set<string>)
    requires 0 <= j < |e.participants|
    requires temp == temp0 + ParticipantRows(e, e.participants[..j], viewer, names, settled)
    ensures temp + ParticipantRow(e, e.participants[j], viewer, names, settled)
            == temp0 + ParticipantRows(e, e.participants[..j + 1], viewer, names, settled)
  {
    var ps, p := e.participants[..j], e.participants[j];
    ParticipantRowsSnoc(e, ps, p, viewer, names, settled);
    assert ps + [p] == e.participants[..j + 1];
  }

  /**
   * One iteration of the inner loop: the payer's own slot is skipped; otherwise the row is
   * built when the viewer is the participant (debt) or the payer (credit).
   */
  method SlotRow(e: Expense, p: string, currentUid: string, names: map<string, string>,
                 settledKeys: set<string>, shareRon: real, shareRaw: real) returns (row: seq<BalanceItem>)
    requires shareRon == ShareConverted(e) && shareRaw == ShareRaw(e)
    ensures row == ParticipantRow(e, p, currentUid, names, settledKeys)
  {
    row := [];
    if p == e.payerUid {
      return;
    }
    var key := e.id + "_" + p + "_" + e.payerUid;
    assert key == ObligationKey(e.id, p, e.payerUid);
    if p == currentUid {
      row := [BalanceItem(key, e.title, NameOf(names, e.payerUid), e.payerUid,
                          shareRon, shareRaw, e.currencyCode, Debt, key in settledKeys)];
    } else if e.payerUid == currentUid {
      row := [BalanceItem(key, e.title, NameOf(names, p), p,
                          shareRon, shareRaw, e.currencyCode, Credit, key in settledKeys)];
    }
  }

  lemma ParticipantRowsSnoc(e: Expense, ps: seq<string>, p: string, viewer: string,
                            names: map<string, string>, settled: set<string>)
    ensures ParticipantRows(e, ps + [p], viewer, names, settled)
            == ParticipantRows(e, ps, viewer, names, settled) + ParticipantRow(e, p, viewer, names, settled)
  {
    assert (ps + [p])[..|ps|] == ps;
  }

  /** The rows of a concatenated expense list are the concatenated rows: order is kept. */
  lemma {:induction false} UserBalancesAppend(a: seq<Expense>, b: seq<Expense>, viewer: string,
                                              names: map<string, string>, settled: set<string>)
    ensures UserBalances(a + b, viewer, names, settled)
            == UserBalances(a, viewer, names, settled) + UserBalances(b, viewer, names, settled)
  {
    if b == [] {
      assert a + b == a;
    } else {
      var b' := b[..|b| - 1];
      assert (a + b)[..|a + b| - 1] == a + b';
      assert (a + b)[|a + b| - 1] == b[|b| - 1];
      UserBalancesAppend(a, b', viewer, names, settled);
    }
  }

  lemma {:induction false} ParticipantRowsSound(e: Expense, ps: seq<string>, viewer: string,
                                                names: map<string, string>, settled: set<string>,
                                                r: BalanceItem)
    requires forall k :: 0 <= k < |ps| ==> ps[k] in e.participants
    requires r in ParticipantRows(e, ps, viewer, names, settled)
    ensures ObligationRow(e, viewer, names, settled, r)
  {
    var last := ps[|ps| - 1];
    if r in ParticipantRow(e, last, viewer, names, settled) {
      assert last in e.participants;
    } else {
      ParticipantRowsSound(e, ps[..|ps| - 1], viewer, names, settled, r);
    }
  }

  /** Every row is an obligation of one of the expenses, as ObligationRow describes. */
  lemma {:induction false} RowsAreObligations(es: seq<Expense>, viewer: string,
                                              names: map<string, string>, settled: set<string>,
                                              r: BalanceItem)
    requires r in UserBalances(es, viewer, names, settled)
    ensures exists i :: 0 <= i < |es| && ObligationRow(es[i], viewer, names, settled, r)
  {
    var n := |es| - 1;
    if r in ExpenseRows(es[n], viewer, names, settled) {
      ParticipantRowsSound(es[n], es[n].participants, viewer, names, settled, r);
      assert ObligationRow(es[n], viewer, names, settled, r);
    } else {
      RowsAreObligations(es[..n], viewer, names, settled, r);
      var i :| 0 <= i < n && ObligationRow(es[..n][i], viewer, names, settled, r);
      assert es[..n][i] == es[i];
    }
  }

  lemma {:induction false} ParticipantRowsCount(e: Expense, ps: seq<string>, viewer: string,
                                                names: map<string, string>, settled: set<string>)
    ensures |ParticipantRows(e, ps, viewer, names, settled)|
            == if viewer == e.payerUid then |ps| - multiset(ps)[viewer] else multiset(ps)[viewer]
  {
    if ps != [] {
      var init := ps[..|ps| - 1];
      assert ps == init + [ps[|ps| - 1]];
      assert multiset(ps) == multiset(init) + multiset{ps[|ps| - 1]};
      ParticipantRowsCount(e, init, viewer, names, settled);
    }
  }

  /**
   * How many rows one expense yields: for its payer one per slot held by someone else, for
   * anybody else one per slot they hold, so a duplicated participant is charged twice and
   * an expense without participants yields nothing.
   */
  lemma ExpenseRowCount(e: Expense, viewer: string, names: map<string, string>, settled: set<string>)
    ensures |ExpenseRows(e, viewer, names, settled)|
            == if viewer == e.payerUid then |e.participants| - multiset(e.participants)[viewer]
               else multiset(e.participants)[viewer]
  {
    ParticipantRowsCount(e, e.participants, viewer, names, settled);
  }

  /** Sum of the raw amounts of a row list. */
  function SumRaw(rows: seq<BalanceItem>): real {
    if rows == [] then 0.0 else SumRaw(rows[..|rows| - 1]) + rows[|rows| - 1].amountRaw
  }

  lemma {:induction false} SumRawAppend(a: seq<BalanceItem>, b: seq<BalanceItem>)
    ensures SumRaw(a + b) == SumRaw(a) + SumRaw(b)
  {
    if b == [] {
      assert a + b == a;
    } else {
      assert (a + b)[..|a + b| - 1] == a + b[..|b| - 1];
      SumRawAppend(a, b[..|b| - 1]);
    }
  }

  /** `k` copies of `s` added up. */
  function Times(s: real, k: nat): real {
    if k == 0 then 0.0 else Times(s, k - 1) + s
  }

  lemma {:induction false} TimesIsProduct(s: real, k: nat)
    ensures Times(s, k) == s * (k as real)
  {
    if k > 0 {
      TimesIsProduct(s, k - 1);
      MulSucc(s, k - 1);
    }
  }

  lemma MulSucc(s: real, k: int)
    ensures s * ((k + 1) as real) == s * (k as real) + s
  {
  }

  /** The slots of `ps` held by someone other than `payer`. */
  function OtherSlots(ps: seq<string>, payer: string): nat {
    |ps| - multiset(ps)[payer]
  }

  lemma OtherSlotsSnoc(ps: seq<string>, payer: string)
    requires ps != []
    ensures OtherSlots(ps, payer)
            == OtherSlots(ps[..|ps| - 1], payer) + (if ps[|ps| - 1] != payer then 1 else 0)
  {
    var init, p := ps[..|ps| - 1], ps[|ps| - 1];
    assert ps == init + [p];
    assert multiset(ps) == multiset(init) + multiset{p};
  }

  /** The payer's row for one slot is a credit of one share, unless the slot is the payer's. */
  lemma PayerRowSum(e: Expense, p: string, names: map<string, string>, settled: set<string>)
    ensures SumRaw(ParticipantRow(e, p, e.payerUid, names, settled))
            == if p != e.payerUid then ShareRaw(e) else 0.0
  {
    var row := ParticipantRow(e, p, e.payerUid, names, settled);
    if p != e.payerUid {
      assert SumRaw(row) == SumRaw(row[..0]) + row[0].amountRaw;
    }
  }

  lemma {:induction false} PayerTotalOver(e: Expense, ps: seq<string>, names: map<string, string>,
                                          settled: set<string>)
    ensures SumRaw(ParticipantRows(e, ps, e.payerUid, names, settled))
            == Times(ShareRaw(e), OtherSlots(ps, e.payerUid))
  {
    if ps != [] {
      var init := ps[..|ps| - 1];
      PayerTotalOver(e, init, names, settled);
      PayerSlotStep(e, ps, names, settled);
      OtherSlotsSnoc(ps, e.payerUid);
      TimesStep(ShareRaw(e), OtherSlots(init, e.payerUid), OtherSlots(ps, e.payerUid), ps[|ps| - 1] != e.payerUid);
    }
  }

  /** One more term, when `more` holds. */
  lemma TimesStep(s: real, k: nat, k1: nat, more: bool)
    requires k1 == k + (if more then 1 else 0)
    ensures Times(s, k1) == Times(s, k) + (if more then s else 0.0)
  {
  }

  /** One more slot adds the payer's row for it to the sum. */
  lemma PayerSlotStep(e: Expense, ps: seq<string>, names: map<string, string>, settled: set<string>)
    requires ps != []
    ensures SumRaw(ParticipantRows(e, ps, e.payerUid, names, settled))
            == SumRaw(ParticipantRows(e, ps[..|ps| - 1], e.payerUid, names, settled))
               + (if ps[|ps| - 1] != e.payerUid then ShareRaw(e) else 0.0)
  {
    var init, p := ps[..|ps| - 1], ps[|ps| - 1];
    SumRawAppend(ParticipantRows(e, init, e.payerUid, names, settled), ParticipantRow(e, p, e.payerUid, names, settled));
    PayerRowSum(e, p, names, settled);
  }

  /**
   * The payer's credits on one expense add up to the equal share times the number of slots
   * not held by the payer: ShareRaw(e) * (|P| - 1) when the payer takes part once.
   */
  lemma PayerCreditTotal(e: Expense, names: map<string, string>, settled: set<string>)
    ensures SumRaw(ExpenseRows(e, e.payerUid, names, settled))
            == ShareRaw(e) * (OtherSlots(e.participants, e.payerUid) as real)
  {
    PayerTotalOver(e, e.participants, names, settled);
    TimesIsProduct(ShareRaw(e), OtherSlots(e.participants, e.payerUid));
  }

  /** `after` is `before` row for row, each `settled` flag read from the key set `keys`. */
  predicate Resettled(before: seq<BalanceItem>, after: seq<BalanceItem>, keys: set<string>) {
    && |after| == |before|
    && forall k :: 0 <= k < |before| ==> after[k] == before[k].(settled := before[k].id in keys)
  }

  lemma ResettledAppend(a1: seq<BalanceItem>, b1: seq<BalanceItem>, a2: seq<BalanceItem>,
                        b2: seq<BalanceItem>, keys: set<string>)
    requires Resettled(a1, b1, keys) && Resettled(a2, b2, keys)
    ensures Resettled(a1 + a2, b1 + b2, keys)
  {
    forall k | 0 <= k < |a1 + a2|
      ensures (b1 + b2)[k] == (a1 + a2)[k].(settled := (a1 + a2)[k].id in keys)
    {
      if k >= |a1| {
        assert (b1 + b2)[k] == b2[k - |a1|] && (a1 + a2)[k] == a2[k - |a1|];
      }
    }
  }

  lemma {:induction false} ParticipantRowsResettle(e: Expense, ps: seq<string>, viewer: string,
                                                   names: map<string, string>, s1: set<string>, s2: set<string>)
    ensures Resettled(ParticipantRows(e, ps, viewer, names, s1), ParticipantRows(e, ps, viewer, names, s2), s2)
  {
    if ps != [] {
      var init, p := ps[..|ps| - 1], ps[|ps| - 1];
      ParticipantRowsResettle(e, init, viewer, names, s1, s2);
      ResettledAppend(ParticipantRows(e, init, viewer, names, s1), ParticipantRows(e, init, viewer, names, s2),
                      ParticipantRow(e, p, viewer, names, s1), ParticipantRow(e, p, viewer, names, s2), s2);
    }
  }

  /**
   * Recomputing with another settled-key set gives the same rows in the same order, each
   * with its `settled` flag now read from the new set; nothing else changes.
   */
  lemma {:induction false} SettledKeysOnlyAffectFlags(es: seq<Expense>, viewer: string,
                                                      names: map<string, string>, s1: set<string>, s2: set<string>)
    ensures Resettled(UserBalances(es, viewer, names, s1), UserBalances(es, viewer, names, s2), s2)
  {
    if es != [] {
      var init, e := es[..|es| - 1], es[|es| - 1];
      SettledKeysOnlyAffectFlags(init, viewer, names, s1, s2);
      ParticipantRowsResettle(e, e.participants, viewer, names, s1, s2);
      ResettledAppend(UserBalances(init, viewer, names, s1), UserBalances(init, viewer, names, s2),
                      ExpenseRows(e, viewer, names, s1), ExpenseRows(e, viewer, names, s2), s2);
    }
  }

  /** The rows the activity keeps when the settled ones are removed from view. */
  function Unsettled(rows: seq<BalanceItem>): (r: seq<BalanceItem>)
    ensures |r| <= |rows|
  {
    if rows == [] then []
    else Unsettled(rows[..|rows| - 1]) + (if rows[|rows| - 1].settled then [] else [rows[|rows| - 1]])
  }

  /** The rows kept are exactly the unsettled ones. */
  lemma {:induction false} UnsettledMembers(rows: seq<BalanceItem>)
    ensures forall x :: x in Unsettled(rows) <==> x in rows && !x.settled
  {
    if rows != [] {
      var init, last := rows[..|rows| - 1], rows[|rows| - 1];
      UnsettledMembers(init);
      assert rows == init + [last];
    }
  }

  /** Filtering commutes with concatenation, so the relative order of kept rows is unchanged. */
  lemma {:induction false} UnsettledAppend(a: seq<BalanceItem>, b: seq<BalanceItem>)
    ensures Unsettled(a + b) == Unsettled(a) + Unsettled(b)
  {
    if b == [] {
      assert a + b == a;
    } else {
      assert (a + b)[..|a + b| - 1] == a + b[..|b| - 1];
      UnsettledAppend(a, b[..|b| - 1]);
    }
  }

  /** A list without settled rows is left as it is. */
  lemma {:induction false} UnsettledKeepsAllWhenNoneSettled(rows: seq<BalanceItem>)
    requires forall k :: 0 <= k < |rows| ==> !rows[k].settled
    ensures Unsettled(rows) == rows
  {
    if rows != [] {
      var init, last := rows[..|rows| - 1], rows[|rows| - 1];
      forall k | 0 <= k < |init| ensures !init[k].settled {
        assert init[k] == rows[k];
      }
      UnsettledKeepsAllWhenNoneSettled(init);
      assert !last.settled;
      assert Unsettled(rows) == Unsettled(init) + [last];
      assert init + [last] == rows;
    }
  }
}
