/**
 * The expense form: the name -> uid dictionary of the group's members, the participant
 * selection, and saveExpense with its guards, its currency conversion into RON and the
 * add-or-update write of ExpenseRepository.
 */
module CreateExpense {
  import opened Wrappers
  import opened Text
  import opened FieldOps
  import opened Models
  import opened CurrencyService

  // ------------------------------------------------------------ membersMap

  /** An insertion-ordered dictionary (Kotlin's `mutableMapOf`) as its entries in order. */
  type Entries = seq<(string, string)>

  function Names(e: Entries): (r: seq<string>)
    ensures |r| == |e|
    ensures forall k :: 0 <= k < |e| ==> r[k] == e[k].0
  {
    if e == [] then [] else Names(e[..|e| - 1]) + [e[|e| - 1].0]
  }

  /** `map[name]`. */
  function Lookup(e: Entries, name: string): (r: Option<string>)
    ensures r.None? <==> name !in Names(e)
  {
    if e == [] then None
    else if e[|e| - 1].0 == name then Some(e[|e| - 1].1)
    else Lookup(e[..|e| - 1], name)
  }

  /** `map[name] = uid`: an existing name keeps its place and takes the new value. */
  function Put(e: Entries, name: string, uid: string): (r: Entries)
    ensures Names(r) == ArrayUnion(Names(e), name)
    ensures Lookup(r, name) == Some(uid)
    ensures forall n :: n != name ==> Lookup(r, n) == Lookup(e, n)
  {
    if e == [] then [(name, uid)]
    else if name !in Names(e) then
      assert Names(e + [(name, uid)])[..|e|] == Names(e);
      e + [(name, uid)]
    else
      var init, last := e[..|e| - 1], e[|e| - 1];
      if last.0 == name then
        assert Names(init + [(name, uid)]) == Names(init) + [name];
        init + [(name, uid)]
      else
        var r := Put(init, name, uid) + [last];
        assert r[..|r| - 1] == Put(init, name, uid);
        assert Names(e) == Names(init) + [last.0];
        r
  }

  /** A user document of the members query: its id and the optional `name` and `email`. */
  datatype UserDoc = UserDoc(id: string, name: Option<string>, email: Option<string>)

  /** `doc.getString("name") ?: doc.getString("email") ?: "Unknown"`. */
  function DisplayName(doc: UserDoc): string {
    match doc.name
    case Some(n) => n
    case None => doc.email.GetOr("Unknown")
  }

  function DisplayNames(docs: seq<UserDoc>): (r: seq<string>)
    ensures |r| == |docs|
    ensures forall k :: 0 <= k < |docs| ==> r[k] == DisplayName(docs[k])
  {
    if docs == [] then [] else DisplayNames(docs[..|docs| - 1]) + [DisplayName(docs[|docs| - 1])]
  }

  /** The dictionary loadMembers builds: one `put` per document, in query order. */
  function MembersOf(docs: seq<UserDoc>): Entries {
    if docs == [] then []
    else
      var last := docs[|docs| - 1];
      Put(MembersOf(docs[..|docs| - 1]), DisplayName(last), last.id)
  }

  /** Arrayunion of each name in turn: the distinct names in order of first appearance. */
  function FirstOccurrences(names: seq<string>): (r: seq<string>)
    ensures NoDuplicates(r)
    ensures forall n :: n in r <==> n in names
  {
    if names == [] then []
    else
      var init := FirstOccurrences(names[..|names| - 1]);
      ArrayUnionNoDuplicates(init, names[|names| - 1]);
      assert forall n :: n in names <==> n in names[..|names| - 1] || n == names[|names| - 1];
      ArrayUnion(init, names[|names| - 1])
  }

  /** The uid of the last document shown under `name`. */
  function LastUidNamed(docs: seq<UserDoc>, name: string): Option<string> {
    if docs == [] then None
    else if DisplayName(docs[|docs| - 1]) == name then Some(docs[|docs| - 1].id)
    else LastUidNamed(docs[..|docs| - 1], name)
  }

  /**
   * The dictionary is keyed by display name in order of first appearance, and two members
   * with the same name collapse to the later one's uid.
   */
  lemma {:induction false} MembersOfShape(docs: seq<UserDoc>)
    ensures Names(MembersOf(docs)) == FirstOccurrences(DisplayNames(docs))
    ensures forall n :: Lookup(MembersOf(docs), n) == LastUidNamed(docs, n)
  {
    if docs != [] {
      var init := docs[..|docs| - 1];
      MembersOfShape(init);
      assert DisplayNames(docs)[..|docs| - 1] == DisplayNames(init);
    }
  }

  // ------------------------------------------------------------ participant dialog

  /** Some entry with a checked name holds `uid`. */
  ghost predicate CheckedEntry(e: Entries, checked: set<string>, uid: string) {
    exists k :: 0 <= k < |e| && e[k].0 in checked && e[k].1 == uid
  }

  /** Some entry named `name` holds a selected uid. */
  ghost predicate SelectedEntry(e: Entries, selected: seq<string>, name: string) {
    exists k :: 0 <= k < |e| && e[k].0 == name && e[k].1 in selected
  }

  /** The uids of the checked names, in the dictionary's order. */
  function CheckedUids(e: Entries, checked: set<string>): (r: seq<string>)
    ensures forall u :: u in r <==> CheckedEntry(e, checked, u)
  {
    if e == [] then []
    else
      var init, last := e[..|e| - 1], e[|e| - 1];
      var rest := CheckedUids(init, checked);
      assert forall k :: 0 <= k < |init| ==> init[k] == e[k];
      if last.0 in checked then rest + [last.1] else rest
  }

  /** The names whose box starts checked: those whose uid is already selected. */
  function InitiallyChecked(e: Entries, selected: seq<string>): (r: set<string>)
    ensures forall n :: n in r <==> SelectedEntry(e, selected, n)
  {
    set k | 0 <= k < |e| && e[k].1 in selected :: e[k].0
  }

  /** Some entry holds `uid`: it is the uid of a member. */
  ghost predicate HoldsUid(e: Entries, uid: string) {
    exists k :: 0 <= k < |e| && e[k].1 == uid
  }

  /** Unchecked boxes drop nothing: a selected member's uid stays selected. */
  lemma ConfirmKeeps(e: Entries, selected: seq<string>, u: string)
    requires u in selected && HoldsUid(e, u)
    ensures u in CheckedUids(e, InitiallyChecked(e, selected))
  {
    var checked := InitiallyChecked(e, selected);
    var k :| 0 <= k < |e| && e[k].1 == u;
    assert SelectedEntry(e, selected, e[k].0);
    assert CheckedEntry(e, checked, u);
  }

  /** Checked boxes add nothing: with distinct names, every confirmed uid was selected. */
  lemma ConfirmAddsNothing(e: Entries, selected: seq<string>, u: string)
    requires NoDuplicates(Names(e))
    requires u in CheckedUids(e, InitiallyChecked(e, selected))
    ensures u in selected && HoldsUid(e, u)
  {
    var checked := InitiallyChecked(e, selected);
    assert CheckedEntry(e, checked, u);
    var k :| 0 <= k < |e| && e[k].0 in checked && e[k].1 == u;
    assert SelectedEntry(e, selected, e[k].0);
    var j :| 0 <= j < |e| && e[j].0 == e[k].0 && e[j].1 in selected;
    SameNameSameEntry(e, j, k);
  }

  lemma SameNameSameEntry(e: Entries, j: int, k: int)
    requires NoDuplicates(Names(e)) && 0 <= j < |e| && 0 <= k < |e| && e[j].0 == e[k].0
    ensures j == k
  {
    var n := Names(e);
    assert n[j] == n[k];
    NoDuplicatesAt(n, j, k);
  }

  lemma NoDuplicatesAt(a: seq<string>, j: int, k: int)
    requires NoDuplicates(a) && 0 <= j < |a| && 0 <= k < |a| && a[j] == a[k]
    ensures j == k
  {
  }

  /**
   * Confirming the dialog without touching a box keeps exactly the selected uids that belong
   * to a member, provided names are not shared.
   */
  lemma ConfirmUnchanged(e: Entries, selected: seq<string>)
    requires NoDuplicates(Names(e))
    ensures forall u :: u in CheckedUids(e, InitiallyChecked(e, selected)) <==> u in selected && HoldsUid(e, u)
  {
    forall u ensures u in CheckedUids(e, InitiallyChecked(e, selected)) <==> u in selected && HoldsUid(e, u) {
      if u in CheckedUids(e, InitiallyChecked(e, selected)) {
        ConfirmAddsNothing(e, selected, u);
      }
      if u in selected && HoldsUid(e, u) {
        ConfirmKeeps(e, selected, u);
      }
    }
  }

  /** In a dictionary without repeated names, the value stored with a name is found by it. */
  lemma {:induction false} LookupAt(e: Entries, k: int)
    requires NoDuplicates(Names(e)) && 0 <= k < |e|
    ensures Lookup(e, e[k].0) == Some(e[k].1)
  {
    if k < |e| - 1 {
      var init := e[..|e| - 1];
      assert Names(e)[k] != Names(e)[|e| - 1];
      assert forall j :: 0 <= j < |init| ==> Names(init)[j] == Names(e)[j];
      LookupAt(init, k);
    }
  }

  /** The activity's dictionary of members and its selected participants. */
  class ExpenseForm {
    var membersMap: Entries
    var selectedParticipants: seq<string>

    /** A dictionary holds each name once. */
    ghost predicate Valid()
      reads this
    {
      NoDuplicates(Names(membersMap))
    }

    constructor ()
      ensures Valid()
      ensures membersMap == [] && selectedParticipants == []
    {
      membersMap := [];
      selectedParticipants := [];
    }

    /**
     * loadMembers on the documents of the members query: the dictionary is cleared and
     * refilled in document order; `names` feeds the payer spinner.
     */
    method LoadMembers(docs: seq<UserDoc>) returns (names: seq<string>)
      modifies this
      ensures Valid()
      ensures membersMap == MembersOf(docs) && names == DisplayNames(docs)
      ensures selectedParticipants == old(selectedParticipants)
    {
      names := [];
      membersMap := [];
      for i := 0 to |docs|
        invariant membersMap == MembersOf(docs[..i]) && names == DisplayNames(docs[..i])
        invariant selectedParticipants == old(selectedParticipants)
      {
        assert docs[..i + 1][..i] == docs[..i];
        var name := DisplayName(docs[i]);
        names := names + [name];
        membersMap := Put(membersMap, name, docs[i].id);
      }
      assert docs[..|docs|] == docs;
      MembersOfShape(docs);
    }

    /** The OK button of the participant dialog, with the names whose box is checked. */
    method ConfirmParticipants(checked: set<string>)
      requires Valid()
      modifies this
      ensures selectedParticipants == CheckedUids(membersMap, checked)
      ensures Valid() && membersMap == old(membersMap)
    {
      var entries := membersMap;
      selectedParticipants := [];
      for i := 0 to |entries|
        invariant membersMap == entries
        invariant selectedParticipants == CheckedUids(entries[..i], checked)
      {
        assert entries[..i + 1][..i] == entries[..i];
        var name := entries[i].0;
        LookupAt(entries, i);
        if name in checked {
          var uid := Lookup(entries, name);
          if uid.Some? {
            selectedParticipants := selectedParticipants + [uid.value];
          }
        }
      }
      assert entries[..|entries|] == entries;
    }
  }

  // ------------------------------------------------------------ saveExpense

  /** What the form holds when the save button is pressed. */
  datatype SaveForm = SaveForm(
    title: string,
    amount: string,
    currency: Option<string>,
    payerName: Option<string>,
    expenseId: Option<string>)

  datatype SaveOutcome =
    | FillAllFields
    | InvalidAmount
    | UnknownPayer
    | NoParticipants
    | ConversionError(message: string)
    | Saved(expense: Expense)

  /** The outcome of a press and the rate tables requested on the way. */
  datatype Save = Save(outcome: SaveOutcome, requests: seq<string>)

  function CurrencyOf(form: SaveForm): string {
    form.currency.GetOr(GroupCurrency)
  }

  /**
   * saveExpense: the guards in source order (empty title, amount or payer; an amount that
   * does not parse or is not positive; a payer name not in the dictionary, silently; no
   * participant), then the conversion into RON, which is skipped for RON. `parse` is
   * `toDoubleOrNull`, `now` the clock.
   */
  function SaveExpense(form: SaveForm, members: Entries, selected: seq<string>,
                       parse: string -> Option<real>, fetch: RateTables, now: int): (s: Save)
    requires CurrencyOf(form) != GroupCurrency ==> PivotDefined(fetch, CurrencyOf(form))
    ensures s.outcome.Saved? ==> s.outcome.expense.participants == selected != []
    ensures s.outcome.Saved? ==> s.outcome.expense.title == Trim(form.title) != ""
    ensures s.outcome.Saved? ==>
              && parse(Trim(form.amount)).Some?
              && s.outcome.expense.amountRaw == parse(Trim(form.amount)).value > 0.0
              && s.outcome.expense.currencyCode == CurrencyOf(form)
    ensures s.outcome.Saved? && CurrencyOf(form) == GroupCurrency ==>
              s.outcome.expense.amountInGroupCurrency == s.outcome.expense.amountRaw
    ensures s.outcome.Saved? ==>
              form.payerName.Some? && Some(s.outcome.expense.payerUid) == Lookup(members, form.payerName.value)
    ensures s.outcome.Saved? ==> s.outcome.expense.createdAt == now
    ensures s.outcome.Saved? ==> s.outcome.expense.id == form.expenseId.GetOr("")
  {
    var title := Trim(form.title);
    var amountText := Trim(form.amount);
    var code := CurrencyOf(form);
    if title == [] || amountText == [] || form.payerName.None? then Save(FillAllFields, [])
    else
      var amount := parse(amountText);
      if amount.None? || amount.value <= 0.0 then Save(InvalidAmount, [])
      else
        var payer := Lookup(members, form.payerName.value);
        if payer.None? then Save(UnknownPayer, [])
        else if selected == [] then Save(NoParticipants, [])
        else
          var c := if code == GroupCurrency then Conversion(Success(amount.value), [])
                   else Convert(fetch, amount.value, code, GroupCurrency);
          match c.result
          case Failure(msg) => Save(ConversionError(msg), c.requests)
          case Success(converted) =>
            Save(Saved(Expense(form.expenseId.GetOr(""), title, amount.value, code, converted,
                               payer.value, selected, now)), c.requests)
  }

  /**
   * A press saves exactly when every guard passes and the conversion succeeds; RON is
   * stored as entered without a request, any other currency as `convert(amount, code, "RON")`.
   */
  lemma SaveExpenseCases(form: SaveForm, members: Entries, selected: seq<string>,
                         parse: string -> Option<real>, fetch: RateTables, now: int)
    requires CurrencyOf(form) != GroupCurrency ==> PivotDefined(fetch, CurrencyOf(form))
    ensures var s := SaveExpense(form, members, selected, parse, fetch, now);
            var amount := parse(Trim(form.amount));
            && (s.outcome == FillAllFields <==> Trim(form.title) == [] || Trim(form.amount) == [] || form.payerName.None?)
            && (s.outcome == InvalidAmount <==>
                  !s.outcome.FillAllFields? && (amount.None? || amount.value <= 0.0))
            && (s.outcome == UnknownPayer <==>
                  !s.outcome.FillAllFields? && !s.outcome.InvalidAmount?
                  && Lookup(members, form.payerName.value).None?)
            && (s.outcome == NoParticipants <==>
                  !s.outcome.FillAllFields? && !s.outcome.InvalidAmount? && !s.outcome.UnknownPayer?
                  && selected == [])
    ensures var s := SaveExpense(form, members, selected, parse, fetch, now);
            (s.outcome.Saved? || s.outcome.ConversionError?) && parse(Trim(form.amount)).Some? ==>
              var amount := parse(Trim(form.amount)).value;
              if CurrencyOf(form) == GroupCurrency then
                s == Save(Saved(s.outcome.expense), [])
                && s.outcome.expense.amountInGroupCurrency == s.outcome.expense.amountRaw == amount
              else
                var c := Convert(fetch, amount, CurrencyOf(form), GroupCurrency);
                s.requests == c.requests
                && (c.result.Failure? <==> s.outcome.ConversionError?)
                && (c.result.Success? ==> s.outcome.expense.amountInGroupCurrency == c.result.value)
  {
  }

  /** The expenses collection of a group, by document id. */
  type Expenses = map<string, Expense>

  /**
   * The write of a saved expense: without an id, addExpenseWithCurrency stores it under
   * the new document id `freshId`; with one, updateExpenseWithCurrency sets that document.
   * Every other outcome writes nothing.
   */
  function Commit(store: Expenses, outcome: SaveOutcome, expenseId: Option<string>, freshId: string): (r: Expenses)
    requires freshId !in store
    ensures !outcome.Saved? ==> r == store
    ensures outcome.Saved? && expenseId.None? ==>
              r == store[freshId := outcome.expense.(id := freshId)]
    ensures outcome.Saved? && expenseId.Some? ==>
              r == store[expenseId.value := outcome.expense]
  {
    if !outcome.Saved? then store
    else match expenseId
      case None => store[freshId := outcome.expense.(id := freshId)]
      case Some(id) => store[id := outcome.expense]
  }

  /**
   * A new expense adds one document under a fresh id and leaves the others; an edit keeps
   * its id and changes only that document.
   */
  lemma SaveWrites(form: SaveForm, members: Entries, selected: seq<string>,
                   parse: string -> Option<real>, fetch: RateTables, now: int,
                   store: Expenses, freshId: string)
    requires CurrencyOf(form) != GroupCurrency ==> PivotDefined(fetch, CurrencyOf(form))
    requires freshId !in store
    ensures var s := SaveExpense(form, members, selected, parse, fetch, now);
            var r := Commit(store, s.outcome, form.expenseId, freshId);
            && (s.outcome.Saved? && form.expenseId.None? ==>
                  r.Keys == store.Keys + {freshId} && r[freshId].id == freshId
                  && forall id :: id in store ==> r[id] == store[id])
            && (s.outcome.Saved? && form.expenseId.Some? ==>
                  var id := form.expenseId.value;
                  r.Keys == store.Keys + {id} && r[id].id == id
                  && forall other :: other in store && other != id ==> r[other] == store[other])
  {
  }
}
