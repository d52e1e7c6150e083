# whopaid, modelled in Dafny

A model of the logic of the whopaid Android app, a bill-splitting app on a document store. It covers:

- the debt/credit rows of the balances screen (`calculateUserBalances`);
- the settlement keys (`toggleSettlement`, `resetAll`);
- hiding settled rows (`removeSettled`) and the grouping and per-currency totals of `sendReminders`;
- `escapeHtml`;
- the two-sided membership relation kept by `GroupRepository`;
- the in-place marker reconciliation of the group map (`updateMarkers`);
- the location documents and their decoding;
- the currency conversion strategy and the currency list of `CurrencyService`;
- the expense form (`loadMembers`, the participant dialog, `saveExpense` and its add-or-update write);
- QR join codes;
- the sign-up and sign-in form checks.

Every document-store, HTTP and authentication call is modelled as a value or a parameter. The tables below refer to the app's source files.

Modules: `Wrappers`, `FieldOps`, `Text`, `Models`, `HtmlEscape`, `BalanceRows`, `Settlements`, `Reminders`, `BalanceActivity`, `GroupRepository`, `LocationRepository`, `GroupMap`, `GroupMapLayer`, `CurrencyService`, `CreateExpense`, `ScanQr`, `AuthForms`.

Behaviours of the code that a reader might not expect, which the model follows:

- `stopSharingForGroup` is documented as clearing the coordinates, but its merge keeps them (`LocationRepository.StopThenDecode`).
- `createGroup` reports a failure when the admin has no user document, even though its merge then creates that document (`GroupRepository.CreateGroupShape`).
- Editing an expense resets its `createdAt` to the current time (`CreateExpense.SaveExpense`).
- Joining by QR code writes only the group's `members`, so it can break the agreement between the two sides of the membership relation (`ScanQr.JoinCanBreakConsistency`).
- The parser accepts the bare prefix `JOIN_GROUP:` as a join code for the group "" (`ScanQr.BarePrefixAccepted`): nothing in the scan handler checks the id. What the document store then does with the id "" is not modelled (see "Left out").
- `validate` never clears an error, so a valid field keeps the error it showed before (`AuthForms.RegisterForm.Validate`, `AuthForms.LoginForm.Validate`). Android also clears a field's error when its text is edited, which is not modelled. So such a stale error only stays on a field that becomes valid without being edited, such as the confirmation after the password is changed.
- A uid listed twice in the locations, first not sharing and then sharing, loses its marker and gets a new one in the same pass, so `updateMarkers` keeps a marker object only for lists with distinct uids (`GroupMapLayer.MarkerLayer.UpdateMarkers`).
- Two members with the same display name collapse into one dictionary entry, which keeps the later uid (`CreateExpense.MembersOfShape`).

## Model

| member | source | states |
|---|---|---|
| FieldOps.ArrayUnion | app/src/main/java/com/example/whopaid/repo/GroupRepository.kt:51 | arrayUnion(x): the elements are those of the array plus x; an array already holding x is unchanged, otherwise x is appended |
| FieldOps.ArrayRemove | app/src/main/java/com/example/whopaid/repo/GroupRepository.kt:96 | arrayRemove(x): the elements are those of the array other than x; an array without x is unchanged |
| FieldOps.ArrayUnionNoDuplicates | app/src/main/java/com/example/whopaid/repo/GroupRepository.kt:82-83 | arrayUnion never introduces a duplicate |
| FieldOps.ArrayRemoveNoDuplicates | app/src/main/java/com/example/whopaid/repo/GroupRepository.kt:96-97 | arrayRemove never introduces a duplicate |
| FieldOps.RemoveUndoesUnion | app/src/main/java/com/example/whopaid/repo/GroupRepository.kt:82-96 | removing an element that union added gives back the original array |
| Text.RemovePrefix | app/src/main/java/com/example/whopaid/ui/groups/ScanQrActivity.kt:138 | removePrefix: prefix + result is the text when it starts with the prefix, otherwise the text is returned as is |
| Text.LeadingWhitespace | app/src/main/java/com/example/whopaid/ui/auth/RegisterActivity.kt:32 | the leading run of whitespace characters is maximal |
| Text.TrailingWhitespace | app/src/main/java/com/example/whopaid/ui/auth/RegisterActivity.kt:32 | the trailing run of whitespace characters is maximal |
| Text.TrimBounds | app/src/main/java/com/example/whopaid/ui/auth/RegisterActivity.kt:32-34 | the slice trim() keeps is bounded by whitespace on both sides and starts and ends with non-whitespace |
| Text.Trim | app/src/main/java/com/example/whopaid/ui/expenses/CreateExpenseActivity.kt:234-235 | trim(): a slice of the input, everything outside it whitespace, its ends not whitespace, empty exactly for an all-whitespace input |
| Text.Utf16Length | app/src/main/java/com/example/whopaid/ui/auth/RegisterActivity.kt:99 | String.length counts UTF-16 code units: between the character count and twice it |
| Text.Utf16LengthAppend | app/src/main/java/com/example/whopaid/ui/auth/RegisterActivity.kt:99 | the length of a concatenation is the sum of the lengths |
| Text.Utf16LengthBmp | app/src/main/java/com/example/whopaid/ui/auth/RegisterActivity.kt:99 | for text within the Basic Multilingual Plane the length is the character count |
| Text.ReplaceChar | app/src/main/java/com/example/whopaid/ui/expenses/BalanceActivity.kt:368 | replace(c, rep): leaves a text without c unchanged, and leaves no c when rep has none |
| Text.ReplaceCharAppend | app/src/main/java/com/example/whopaid/ui/expenses/BalanceActivity.kt:368-372 | replacing distributes over concatenation |
| Text.ReplaceCharKeeps | app/src/main/java/com/example/whopaid/ui/expenses/BalanceActivity.kt:368-372 | a character other than the pattern and absent from the replacement is present afterwards iff it was before |
| Text.LexLessIrreflexive | app/src/main/java/com/example/whopaid/service/CurrencyService.kt:99 | compareTo order: no string is less than itself |
| Text.LexLessTransitive | app/src/main/java/com/example/whopaid/service/CurrencyService.kt:99 | compareTo order is transitive |
| Text.LexLessTotal | app/src/main/java/com/example/whopaid/service/CurrencyService.kt:99 | compareTo order is total on distinct strings |
| Text.LexLessAsymmetric | app/src/main/java/com/example/whopaid/service/CurrencyService.kt:99 | compareTo order is asymmetric |
| HtmlEscape.EncodeChar | app/src/main/java/com/example/whopaid/ui/expenses/BalanceActivity.kt:367-373 | reference encoding of one character: a special character becomes an entity starting with '&', any other stays itself |
| HtmlEscape.EncodeEach | app/src/main/java/com/example/whopaid/ui/expenses/BalanceActivity.kt:367-373 | the per-character encoding contains none of < > " ' |
| HtmlEscape.EscapeHtmlAppend | app/src/main/java/com/example/whopaid/ui/expenses/BalanceActivity.kt:367-373 | escapeHtml distributes over concatenation |
| HtmlEscape.ReplaceSingle | app/src/main/java/com/example/whopaid/ui/expenses/BalanceActivity.kt:368 | replacing in a one-character string gives the replacement or the character |
| HtmlEscape.EscapeHtmlChar | app/src/main/java/com/example/whopaid/ui/expenses/BalanceActivity.kt:367-373 | the five-step chain maps one character to its single entity, because '&' goes first |
| HtmlEscape.EscapeHtmlEncodesEachChar | app/src/main/java/com/example/whopaid/ui/expenses/BalanceActivity.kt:367-373 | escapeHtml equals the per-character encoding: no entity produced by a later step is escaped again |
| HtmlEscape.EscapeHtmlIsSafe | app/src/main/java/com/example/whopaid/ui/expenses/BalanceActivity.kt:367-373 | the escaped text contains none of < > " ' |
| HtmlEscape.EscapeHtmlPlain | app/src/main/java/com/example/whopaid/ui/expenses/BalanceActivity.kt:367-373 | a text without any of & < > " ' is returned unchanged |
| HtmlEscape.EncodeEachPlain | app/src/main/java/com/example/whopaid/ui/expenses/BalanceActivity.kt:367-373 | the per-character encoding leaves a plain text unchanged |
| HtmlEscape.UnescapeStep | app/src/main/java/com/example/whopaid/ui/expenses/BalanceActivity.kt:367-373 | decoding an encoded character peels off exactly that character |
| HtmlEscape.UnescapeEncodeEach | app/src/main/java/com/example/whopaid/ui/expenses/BalanceActivity.kt:367-373 | decoding inverts the per-character encoding |
| HtmlEscape.UnescapeEscapeHtml | app/src/main/java/com/example/whopaid/ui/expenses/BalanceActivity.kt:367-373 | escapeHtml loses nothing: decoding the escaped title gives it back |
| BalanceRows.ComputeRows | app/src/main/java/com/example/whopaid/ui/expenses/BalanceActivity.kt:173-217 | the nested loop of calculateUserBalances builds exactly UserBalances: expense order, then participant order |
| BalanceRows.AppendExpenseRows | app/src/main/java/com/example/whopaid/ui/expenses/BalanceActivity.kt:183-216 | the inner loop appends, for each participant slot, the row of ParticipantRow, skipping the payer's slot |
| BalanceRows.SlotRow | app/src/main/java/com/example/whopaid/ui/expenses/BalanceActivity.kt:184-215 | one iteration of the inner loop: nothing for the payer's own slot, otherwise exactly the row ParticipantRow gives, keyed expenseId_participant_payer |
| BalanceRows.AppendSlotStep | app/src/main/java/com/example/whopaid/ui/expenses/BalanceActivity.kt:183-216 | appending one slot's row extends the rows of the slots seen so far by that slot |
| BalanceRows.ParticipantRowsSnoc | app/src/main/java/com/example/whopaid/ui/expenses/BalanceActivity.kt:183-216 | one more participant slot appends its row |
| BalanceRows.UserBalancesAppend | app/src/main/java/com/example/whopaid/ui/expenses/BalanceActivity.kt:175-217 | rows of concatenated expense lists are the concatenated rows, so order is kept |
| BalanceRows.ParticipantRowsSound | app/src/main/java/com/example/whopaid/ui/expenses/BalanceActivity.kt:183-215 | every row of one expense is an ObligationRow: key expenseId_debtor_payer, settled iff the key is settled, an equal share in both currencies, a debt to the payer or a credit of the payer, never against the payer's own slot |
| BalanceRows.RowsAreObligations | app/src/main/java/com/example/whopaid/ui/expenses/BalanceActivity.kt:167-224 | every row the screen shows is an ObligationRow of one of the expenses |
| BalanceRows.ParticipantRowsCount | app/src/main/java/com/example/whopaid/ui/expenses/BalanceActivity.kt:183-215 | row count over slots: for the payer the slots held by others, for anybody else the slots they hold |
| BalanceRows.ExpenseRowCount | app/src/main/java/com/example/whopaid/ui/expenses/BalanceActivity.kt:176-215 | one expense yields one row per matching slot; duplicates count twice and no participants yields nothing |
| BalanceRows.SumRawAppend | app/src/main/java/com/example/whopaid/ui/expenses/BalanceActivity.kt:304-315 | the sum of raw amounts distributes over concatenation |
| BalanceRows.TimesIsProduct | app/src/main/java/com/example/whopaid/ui/expenses/BalanceActivity.kt:179-181 | k shares added up are the share times k |
| BalanceRows.MulSucc | app/src/main/java/com/example/whopaid/ui/expenses/BalanceActivity.kt:179-181 | one more share adds one share |
| BalanceRows.OtherSlotsSnoc | app/src/main/java/com/example/whopaid/ui/expenses/BalanceActivity.kt:183-184 | one more slot counts as another's slot exactly when it is not the payer's |
| BalanceRows.PayerRowSum | app/src/main/java/com/example/whopaid/ui/expenses/BalanceActivity.kt:183-214 | the payer's row for a slot credits one share, and nothing for the payer's own slot |
| BalanceRows.PayerSlotStep | app/src/main/java/com/example/whopaid/ui/expenses/BalanceActivity.kt:183-214 | the payer's credits grow by one share for a slot held by someone else and by nothing for the payer's own |
| BalanceRows.TimesStep | app/src/main/java/com/example/whopaid/ui/expenses/BalanceActivity.kt:179-181 | a share count that grows by one adds one share to the total |
| BalanceRows.PayerTotalOver | app/src/main/java/com/example/whopaid/ui/expenses/BalanceActivity.kt:179-214 | the payer's credits over a list of slots add up to one share per slot held by someone else |
| BalanceRows.PayerCreditTotal | app/src/main/java/com/example/whopaid/ui/expenses/BalanceActivity.kt:176-214 | the payer's credits on one expense add up to the share times the number of slots not held by the payer |
| BalanceRows.ParticipantRowsResettle | app/src/main/java/com/example/whopaid/ui/expenses/BalanceActivity.kt:198-212 | another settled-key set changes only the settled flags of one expense's rows |
| BalanceRows.ResettledAppend | app/src/main/java/com/example/whopaid/ui/expenses/BalanceActivity.kt:198-212 | re-reading settled flags from a key set commutes with concatenating row lists |
| BalanceRows.SettledKeysOnlyAffectFlags | app/src/main/java/com/example/whopaid/ui/expenses/BalanceActivity.kt:133-212 | recomputing with another key set gives the same rows in the same order, each settled flag read from the new set |
| BalanceRows.Unsettled | app/src/main/java/com/example/whopaid/ui/expenses/BalanceActivity.kt:379 | filterNot { settled } never lengthens the list |
| BalanceRows.UnsettledMembers | app/src/main/java/com/example/whopaid/ui/expenses/BalanceActivity.kt:379 | a row is kept exactly when it is in the list and not settled |
| BalanceRows.UnsettledAppend | app/src/main/java/com/example/whopaid/ui/expenses/BalanceActivity.kt:379 | the filter commutes with concatenation, keeping relative order |
| BalanceRows.UnsettledKeepsAllWhenNoneSettled | app/src/main/java/com/example/whopaid/ui/expenses/BalanceActivity.kt:379-381 | a list without settled rows is kept whole |
| Settlements.AfterToggle | app/src/main/java/com/example/whopaid/ui/expenses/BalanceActivity.kt:236-240 | after a toggle the item's key is present iff the item is settled, and every other key is as before |
| Settlements.ToggleIdempotent | app/src/main/java/com/example/whopaid/ui/expenses/BalanceActivity.kt:236-240 | repeating a toggle with the same flag changes nothing more |
| Settlements.MarkThenUnmark | app/src/main/java/com/example/whopaid/ui/expenses/BalanceActivity.kt:236-240 | marking then unmarking an unsettled obligation restores the key set |
| Settlements.ToggleShowsInRows | app/src/main/java/com/example/whopaid/ui/expenses/BalanceActivity.kt:236-240 | after a toggle the recomputed rows are the old rows; exactly those with the toggled key take its new flag |
| Settlements.ResetLeavesNothingSettled | app/src/main/java/com/example/whopaid/ui/expenses/BalanceActivity.kt:403-408 | once the collection is cleared every recomputed row is unsettled |
| Settlements.SettlementStore.constructor | app/src/main/java/com/example/whopaid/ui/expenses/BalanceActivity.kt:122 | an empty settlements collection |
| Settlements.SettlementStore.Put | app/src/main/java/com/example/whopaid/ui/expenses/BalanceActivity.kt:237 | set({settled: true}) adds the document id |
| Settlements.SettlementStore.Delete | app/src/main/java/com/example/whopaid/ui/expenses/BalanceActivity.kt:239 | delete() removes the document id, a missing one included |
| Settlements.SettlementStore.ToggleSettlement | app/src/main/java/com/example/whopaid/ui/expenses/BalanceActivity.kt:230-249 | the new key set is AfterToggle of the old one |
| Settlements.SettlementStore.ResetAll | app/src/main/java/com/example/whopaid/ui/expenses/BalanceActivity.kt:398-417 | every document of the snapshot is deleted, leaving the collection empty |
| Reminders.CreditItems | app/src/main/java/com/example/whopaid/ui/expenses/BalanceActivity.kt:267 | exactly the unsettled credit rows |
| Reminders.UserIdsSnoc | app/src/main/java/com/example/whopaid/ui/expenses/BalanceActivity.kt:275 | one more item adds its counterparty |
| Reminders.Debtors | app/src/main/java/com/example/whopaid/ui/expenses/BalanceActivity.kt:275 | the keys of groupBy { userId }: every counterparty exactly once |
| Reminders.ItemsOf | app/src/main/java/com/example/whopaid/ui/expenses/BalanceActivity.kt:275 | a debtor's group holds exactly that debtor's items |
| Reminders.CurrenciesSnoc | app/src/main/java/com/example/whopaid/ui/expenses/BalanceActivity.kt:313-314 | one more item adds its currency |
| Reminders.TotalInAbsent | app/src/main/java/com/example/whopaid/ui/expenses/BalanceActivity.kt:304-315 | a currency nobody used totals zero |
| Reminders.TotalsAreSums | app/src/main/java/com/example/whopaid/ui/expenses/BalanceActivity.kt:304-315 | the accumulated map has a key for each currency used, and its value is that currency's sum of raw amounts |
| Reminders.TotalsStep | app/src/main/java/com/example/whopaid/ui/expenses/BalanceActivity.kt:313-314 | one more item adds its raw amount to its currency's entry, starting from 0.0 |
| Reminders.CurrencyTotals | app/src/main/java/com/example/whopaid/ui/expenses/BalanceActivity.kt:304-315 | the accumulation loop computes Totals of the debtor's items |
| Reminders.PlanReminders | app/src/main/java/com/example/whopaid/ui/expenses/BalanceActivity.kt:267-272 | nothing is attempted exactly when there is no unsettled credit row |
| Reminders.PlanDebtorsDistinct | app/src/main/java/com/example/whopaid/ui/expenses/BalanceActivity.kt:275-282 | each debtor gets at most one reminder |
| Reminders.PlanCoversCredits | app/src/main/java/com/example/whopaid/ui/expenses/BalanceActivity.kt:267-282 | every unsettled credit row lands in its debtor's reminder |
| Reminders.PlanGroupsExact | app/src/main/java/com/example/whopaid/ui/expenses/BalanceActivity.kt:267-315 | each reminder is non-empty, holds only unsettled credit rows of its debtor, and its totals are the per-currency sums |
| BalanceActivity.BalanceScreen.constructor | app/src/main/java/com/example/whopaid/ui/expenses/BalanceActivity.kt:43-46 | no rows and no settled keys |
| BalanceActivity.BalanceScreen.CalculateUserBalances | app/src/main/java/com/example/whopaid/ui/expenses/BalanceActivity.kt:167-224 | the row list is replaced wholesale by UserBalances |
| BalanceActivity.BalanceScreen.OnSettlementsEvent | app/src/main/java/com/example/whopaid/ui/expenses/BalanceActivity.kt:123-136 | an error changes nothing; a snapshot sets the key set to its document ids, empty for a null snapshot, and recomputes the rows |
| BalanceActivity.BalanceScreen.RemoveSettled | app/src/main/java/com/example/whopaid/ui/expenses/BalanceActivity.kt:378-384 | the row list becomes Unsettled of the old one |
| BalanceActivity.BalanceScreen.SendReminders | app/src/main/java/com/example/whopaid/ui/expenses/BalanceActivity.kt:260-315 | the reminders prepared are PlanReminders of the rows shown |
| BalanceActivity.ReminderList | app/src/main/java/com/example/whopaid/ui/expenses/BalanceActivity.kt:282-315 | the loop over the debtor groups yields, in order, one reminder per debtor with that debtor's credit rows and their per-currency totals |
| BalanceActivity.RemoveSettledKeepsUnsettled | app/src/main/java/com/example/whopaid/ui/expenses/BalanceActivity.kt:379-381 | after hiding, no shown row is settled and every unsettled row is still shown |
| GroupRepository.CreateGroupShape | app/src/main/java/com/example/whopaid/repo/GroupRepository.kt:31-61 | the new group has the creator as admin and sole member, the creator lists it, success iff the creator had a user document, other groups untouched |
| GroupRepository.CreateGroupConsistent | app/src/main/java/com/example/whopaid/repo/GroupRepository.kt:31-61 | createGroup with a fresh id keeps both sides of the membership relation in agreement |
| GroupRepository.AddMemberNoMatch | app/src/main/java/com/example/whopaid/repo/GroupRepository.kt:74-77 | no user with the e-mail: failure "No user found with that email" and nothing changes |
| GroupRepository.AddMemberEffect | app/src/main/java/com/example/whopaid/repo/GroupRepository.kt:78-85 | the first match is union-added to members and the group to its groups; nothing else changes |
| GroupRepository.AddExistingMemberNoChange | app/src/main/java/com/example/whopaid/repo/GroupRepository.kt:82-83 | adding an existing member leaves the store unchanged |
| GroupRepository.AddMemberConsistent | app/src/main/java/com/example/whopaid/repo/GroupRepository.kt:71-89 | addMemberByEmail keeps the relation consistent |
| GroupRepository.LeaveEffect | app/src/main/java/com/example/whopaid/repo/GroupRepository.kt:94-149 | leaving removes exactly that one membership on both sides and nothing else |
| GroupRepository.LeaveConsistent | app/src/main/java/com/example/whopaid/repo/GroupRepository.kt:94-102 | leaveGroup and removeMember keep the relation consistent |
| GroupRepository.RemovingAdminIsPossible | app/src/main/java/com/example/whopaid/repo/GroupRepository.kt:141-149 | removeMember has no admin check: the admin can be removed and the group then lacks its admin as member |
| GroupRepository.UnlinkMembersEffect | app/src/main/java/com/example/whopaid/repo/GroupRepository.kt:121-124 | with all user documents present, each listed member loses the group id and everybody else is untouched |
| GroupRepository.MembersHaveUsers | app/src/main/java/com/example/whopaid/repo/GroupRepository.kt:16-17 | in a consistent store every member has a user document |
| GroupRepository.DeleteGroupEffect | app/src/main/java/com/example/whopaid/repo/GroupRepository.kt:113-133 | deleting a listed group succeeds, removes it, and no user lists it any more |
| GroupRepository.UnlinkedForward | app/src/main/java/com/example/whopaid/repo/GroupRepository.kt:121-127 | after unlinking, the other groups' members still list their groups |
| GroupRepository.UnlinkedBackward | app/src/main/java/com/example/whopaid/repo/GroupRepository.kt:121-127 | after unlinking, every group a user lists is another existing group that has them as member |
| GroupRepository.UnlinkedMembersListed | app/src/main/java/com/example/whopaid/repo/GroupRepository.kt:121-127 | after unlinking and deleting the group, every member of a remaining group lists that group |
| GroupRepository.UnlinkedGroupsListed | app/src/main/java/com/example/whopaid/repo/GroupRepository.kt:121-127 | after unlinking and deleting the group, every group a user lists exists and has them as member |
| GroupRepository.UnlinkedConsistent | app/src/main/java/com/example/whopaid/repo/GroupRepository.kt:121-127 | unlinking then deleting the group gives a consistent store |
| GroupRepository.DeleteGroupConsistent | app/src/main/java/com/example/whopaid/repo/GroupRepository.kt:113-133 | deleteGroup keeps the relation consistent |
| GroupRepository.DeleteMissingGroup | app/src/main/java/com/example/whopaid/repo/GroupRepository.kt:115-116 | a missing group fails with "Group not found" and changes nothing |
| GroupRepository.UnlinkFailureStops | app/src/main/java/com/example/whopaid/repo/GroupRepository.kt:121-124 | once an update of the member loop fails, the rest of the loop does not run |
| GroupRepository.GroupStore.constructor | app/src/main/java/com/example/whopaid/repo/GroupRepository.kt:23-24 | the two collections as given |
| GroupRepository.GroupStore.CreateGroup | app/src/main/java/com/example/whopaid/repo/GroupRepository.kt:31-61 | the new state and result are CreateGroupSpec of the old state |
| GroupRepository.GroupStore.AddMemberByEmail | app/src/main/java/com/example/whopaid/repo/GroupRepository.kt:71-89 | the new state and result are AddMemberSpec of the old state |
| GroupRepository.GroupStore.LeaveGroup | app/src/main/java/com/example/whopaid/repo/GroupRepository.kt:94-102 | the new state and result are LeaveSpec of the old state |
| GroupRepository.GroupStore.RemoveMember | app/src/main/java/com/example/whopaid/repo/GroupRepository.kt:141-149 | the same effect as leaveGroup |
| GroupRepository.GroupStore.DeleteGroup | app/src/main/java/com/example/whopaid/repo/GroupRepository.kt:113-133 | the loop over the members and the delete give DeleteGroupSpec of the old state |
| LocationRepository.GetString | app/src/main/java/com/example/whopaid/repo/LocationRepository.kt:76-77 | a string field reads as itself, an absent or null field as null |
| LocationRepository.GetDouble | app/src/main/java/com/example/whopaid/repo/LocationRepository.kt:78-79 | a double reads as itself, a whole number as its value, absent or null as null |
| LocationRepository.GetBool | app/src/main/java/com/example/whopaid/repo/LocationRepository.kt:81 | a boolean reads as itself, absent or null as null |
| LocationRepository.GetTimestamp | app/src/main/java/com/example/whopaid/repo/LocationRepository.kt:80 | a timestamp reads as itself, absent or null as null |
| LocationRepository.Decode | app/src/main/java/com/example/whopaid/repo/LocationRepository.kt:76 | the decoded uid is the uid field when it is a string, otherwise the document id |
| LocationRepository.DecodeDefaults | app/src/main/java/com/example/whopaid/repo/LocationRepository.kt:77-82 | field by field: a decoded name, lat, lng, updatedAt or isSharing is the stored value of the expected type (a whole number read as a double), and "", 0.0, 0.0, no timestamp or false when that field is missing or null |
| LocationRepository.DecodeFailsExactly | app/src/main/java/com/example/whopaid/repo/LocationRepository.kt:75-85 | a document is dropped exactly when one of the six read fields holds a non-null value of a type its getter rejects |
| LocationRepository.DecodeAll | app/src/main/java/com/example/whopaid/repo/LocationRepository.kt:74-86 | mapNotNull never lengthens the list |
| LocationRepository.DecodeAllAppend | app/src/main/java/com/example/whopaid/repo/LocationRepository.kt:74-86 | decoding a concatenation is the concatenation of the decodings: order is kept |
| LocationRepository.DecodeAllSound | app/src/main/java/com/example/whopaid/repo/LocationRepository.kt:74-86 | every decoded entry comes from a document that decodes to it |
| LocationRepository.DecodeAllComplete | app/src/main/java/com/example/whopaid/repo/LocationRepository.kt:74-86 | every document that decodes contributes its entry |
| LocationRepository.DecodeAllMembers | app/src/main/java/com/example/whopaid/repo/LocationRepository.kt:74-86 | an entry is in the list iff some document decodes to it |
| LocationRepository.ObserveGroupLocations | app/src/main/java/com/example/whopaid/repo/LocationRepository.kt:68-88 | an error or a null snapshot delivers the empty list, otherwise the decoded documents |
| LocationRepository.SetThenDecode | app/src/main/java/com/example/whopaid/repo/LocationRepository.kt:25-41 | the written document decodes back exactly, sharing |
| LocationRepository.StopThenDecode | app/src/main/java/com/example/whopaid/repo/LocationRepository.kt:46-57 | the merge keeps the other fields: the location decodes as before, not sharing and with the new timestamp |
| LocationRepository.LocationStore.constructor | app/src/main/java/com/example/whopaid/repo/LocationRepository.kt:63-66 | no location documents |
| LocationRepository.LocationStore.SetLocationForGroup | app/src/main/java/com/example/whopaid/repo/LocationRepository.kt:25-41 | the document of (group, uid) is replaced by the full sharing payload |
| LocationRepository.LocationStore.StopSharingForGroup | app/src/main/java/com/example/whopaid/repo/LocationRepository.kt:46-57 | the document of (group, uid) is merged with isSharing false and the new timestamp, created if missing |
| GroupMap.TitleFor | app/src/main/java/com/example/whopaid/ui/groups/GroupMapActivity.kt:146 | name.ifEmpty { "User" }: never empty, the name when it has one |
| GroupMap.Prune | app/src/main/java/com/example/whopaid/ui/groups/GroupMapActivity.kt:125-131 | exactly the markers whose uid is present remain, unchanged |
| GroupMap.PresentUidsSnoc | app/src/main/java/com/example/whopaid/ui/groups/GroupMapActivity.kt:125 | one more entry adds its uid |
| GroupMap.ApplyUntouched | app/src/main/java/com/example/whopaid/ui/groups/GroupMapActivity.kt:134-156 | entries for other uids leave a marker alone |
| GroupMap.ApplyEntry | app/src/main/java/com/example/whopaid/ui/groups/GroupMapActivity.kt:134-156 | with distinct uids, a uid's own entry decides its marker: none when not sharing, moved with title kept, or new |
| GroupMap.ReconcileDropsAbsent | app/src/main/java/com/example/whopaid/ui/groups/GroupMapActivity.kt:125-131 | every marker whose uid is absent from the list is gone |
| GroupMap.ReconcileKeys | app/src/main/java/com/example/whopaid/ui/groups/GroupMapActivity.kt:123-156 | with distinct uids, the markers are exactly those of the sharing entries |
| GroupMap.ReconcileEntry | app/src/main/java/com/example/whopaid/ui/groups/GroupMapActivity.kt:134-156 | with distinct uids, a sharing entry moves its marker (title kept) or gets a new one titled by name or "User"; a non-sharing entry has none |
| GroupMapLayer.Marker.constructor | app/src/main/java/com/example/whopaid/ui/groups/GroupMapActivity.kt:144-149 | a marker with the given position, title and description |
| GroupMapLayer.RemoveFirst | app/src/main/java/com/example/whopaid/ui/groups/GroupMapActivity.kt:129 | overlays.remove(m): drops its one occurrence and keeps every other element |
| GroupMapLayer.LayerOkAdd | app/src/main/java/com/example/whopaid/ui/groups/GroupMapActivity.kt:150-151 | adding a new marker to both the dictionary and the overlays keeps them in step |
| GroupMapLayer.LayerOkRemove | app/src/main/java/com/example/whopaid/ui/groups/GroupMapActivity.kt:129-137 | removing a marker from both keeps them in step |
| GroupMapLayer.MinusStep | app/src/main/java/com/example/whopaid/ui/groups/GroupMapActivity.kt:128-131 | removing one more key after a batch equals removing the batch with that key |
| GroupMapLayer.MoveToGone | app/src/main/java/com/example/whopaid/ui/groups/GroupMapActivity.kt:128-131 | moving one uid from the keys still to remove to the removed ones keeps them disjoint with the same union |
| GroupMapLayer.PruneIsMinus | app/src/main/java/com/example/whopaid/ui/groups/GroupMapActivity.kt:128-131 | removing the stale keys is Prune |
| GroupMapLayer.MarkerLayer.constructor | app/src/main/java/com/example/whopaid/ui/groups/GroupMapActivity.kt:33 | no markers and no overlays |
| GroupMapLayer.MarkerLayer.RemoveMarker | app/src/main/java/com/example/whopaid/ui/groups/GroupMapActivity.kt:136-137 | the uid's marker leaves the overlays and the dictionary; dictionary and overlays stay in step |
| GroupMapLayer.MarkerLayer.Detach | app/src/main/java/com/example/whopaid/ui/groups/GroupMapActivity.kt:129-130 | the uid's marker, which exists, leaves both |
| GroupMapLayer.MarkerLayer.AddMarker | app/src/main/java/com/example/whopaid/ui/groups/GroupMapActivity.kt:144-151 | a fresh marker for a uid without one is added to both |
| GroupMapLayer.MarkerLayer.Insert | app/src/main/java/com/example/whopaid/ui/groups/GroupMapActivity.kt:150-151 | overlays.add(m) then markers[uid] = m |
| GroupMapLayer.MarkerLayer.MoveMarker | app/src/main/java/com/example/whopaid/ui/groups/GroupMapActivity.kt:152-155 | the uid's marker gets the new position and description, the same object with its old title |
| GroupMapLayer.MarkerLayer.PruneMarkers | app/src/main/java/com/example/whopaid/ui/groups/GroupMapActivity.kt:125-131 | the markers whose uid is absent are removed from both; what is shown is Prune of what was shown |
| GroupMapLayer.MarkerLayer.RemoveAll | app/src/main/java/com/example/whopaid/ui/groups/GroupMapActivity.kt:128-131 | the forEach over the stale uids: exactly those uids lose their markers, from the dictionary and the overlays, and what is shown loses them too |
| GroupMapLayer.MarkerLayer.RemoveStale | app/src/main/java/com/example/whopaid/ui/groups/GroupMapActivity.kt:129-130 | one iteration: one more stale uid is removed from markers and from what is shown |
| GroupMapLayer.MarkerLayer.ApplyLocation | app/src/main/java/com/example/whopaid/ui/groups/GroupMapActivity.kt:135-155 | one entry: what is shown becomes Step of what was shown; every other uid keeps its marker object, and the entry's own uid keeps its object when it had one and still has one |
| GroupMapLayer.MarkerLayer.ApplyEntries | app/src/main/java/com/example/whopaid/ui/groups/GroupMapActivity.kt:134-156 | the loop over the entries: what is shown is Apply of what was shown; every marker is an old one or new, and with distinct uids a uid that had a marker and still has one keeps the same object |
| GroupMapLayer.MarkerLayer.UpdateMarkers | app/src/main/java/com/example/whopaid/ui/groups/GroupMapActivity.kt:123-156 | what is shown is Reconcile of what was shown; dictionary and overlays stay in step; every marker is an old one or new, and with distinct uids a surviving uid keeps its marker object, so its title stays |
| CurrencyService.Convert | app/src/main/java/com/example/whopaid/service/CurrencyService.kt:48-88 | same currency: the amount, no request; a direct rate: amount times it, one request; otherwise the USD cross rate via a second request |
| CurrencyService.ConvertFailsExactly | app/src/main/java/com/example/whopaid/service/CurrencyService.kt:63-87 | a conversion fails iff the currencies differ, there is no direct rate, and the USD table is missing or lacks one of the two; every failure reads "Conversion failed: ..." |
| CurrencyService.ConvertIsCrossRate | app/src/main/java/com/example/whopaid/service/CurrencyService.kt:56-84 | with agreeing tables every successful strategy gives the amount times the cross rate |
| CurrencyService.InverseRates | app/src/main/java/com/example/whopaid/service/CurrencyService.kt:83 | a cross rate times its inverse is 1 |
| CurrencyService.ConvertRoundTrip | app/src/main/java/com/example/whopaid/service/CurrencyService.kt:48-88 | with agreeing tables converting there and back gives the amount again |
| CurrencyService.InsertSorted | app/src/main/java/com/example/whopaid/service/CurrencyService.kt:99 | inserting a code into a strictly sorted list keeps it sorted and adds exactly that code |
| CurrencyService.Sorted | app/src/main/java/com/example/whopaid/service/CurrencyService.kt:99 | sorted(): the same distinct codes in strictly increasing order |
| CurrencyService.SameElementsEmpty | app/src/main/java/com/example/whopaid/service/CurrencyService.kt:99 | two lists with the same elements are both empty or both not |
| CurrencyService.SortedUnique | app/src/main/java/com/example/whopaid/service/CurrencyService.kt:97-99 | a strictly sorted list is determined by its elements, so the listing does not depend on key order |
| CurrencyService.KeyList | app/src/main/java/com/example/whopaid/service/CurrencyService.kt:97 | the table's keys, each once |
| CurrencyService.AvailableCurrencies | app/src/main/java/com/example/whopaid/service/CurrencyService.kt:94-100 | a failed request fails with its message; otherwise a strictly sorted list of exactly the USD table's keys and "USD" |
| CreateExpense.Names | app/src/main/java/com/example/whopaid/ui/expenses/CreateExpenseActivity.kt:128 | the names of the dictionary's entries, in order |
| CreateExpense.Lookup | app/src/main/java/com/example/whopaid/ui/expenses/CreateExpenseActivity.kt:250 | membersMap[name] is null exactly for a name not in the dictionary |
| CreateExpense.Put | app/src/main/java/com/example/whopaid/ui/expenses/CreateExpenseActivity.kt:128 | membersMap[name] = uid: the name is added once at its first place and maps to uid; every other name keeps its value |
| CreateExpense.DisplayNames | app/src/main/java/com/example/whopaid/ui/expenses/CreateExpenseActivity.kt:126-127 | the spinner list: one display name per document, in order |
| CreateExpense.FirstOccurrences | app/src/main/java/com/example/whopaid/ui/expenses/CreateExpenseActivity.kt:125-129 | the distinct names, each once |
| CreateExpense.MembersOfShape | app/src/main/java/com/example/whopaid/ui/expenses/CreateExpenseActivity.kt:125-129 | the dictionary is keyed by display name in order of first appearance, and a shared name maps to the later document's uid |
| CreateExpense.CheckedUids | app/src/main/java/com/example/whopaid/ui/expenses/CreateExpenseActivity.kt:221-222 | exactly the uids of entries whose name is checked |
| CreateExpense.InitiallyChecked | app/src/main/java/com/example/whopaid/ui/expenses/CreateExpenseActivity.kt:211 | a box starts checked exactly when its entry's uid is selected |
| CreateExpense.ConfirmKeeps | app/src/main/java/com/example/whopaid/ui/expenses/CreateExpenseActivity.kt:208-223 | confirming without touching a box keeps every selected member uid |
| CreateExpense.ConfirmAddsNothing | app/src/main/java/com/example/whopaid/ui/expenses/CreateExpenseActivity.kt:208-223 | with distinct names, confirming without touching a box adds no uid |
| CreateExpense.SameNameSameEntry | app/src/main/java/com/example/whopaid/ui/expenses/CreateExpenseActivity.kt:128 | a dictionary holds each name in one entry |
| CreateExpense.NoDuplicatesAt | app/src/main/java/com/example/whopaid/ui/expenses/CreateExpenseActivity.kt:128 | in a list without duplicates equal elements sit at the same index |
| CreateExpense.ConfirmUnchanged | app/src/main/java/com/example/whopaid/ui/expenses/CreateExpenseActivity.kt:208-223 | confirming without touching a box keeps exactly the selected uids that belong to a member |
| CreateExpense.LookupAt | app/src/main/java/com/example/whopaid/ui/expenses/CreateExpenseActivity.kt:222 | in a dictionary each entry's value is found by its name |
| CreateExpense.ExpenseForm.constructor | app/src/main/java/com/example/whopaid/ui/expenses/CreateExpenseActivity.kt:37-38 | an empty dictionary and no participants |
| CreateExpense.ExpenseForm.LoadMembers | app/src/main/java/com/example/whopaid/ui/expenses/CreateExpenseActivity.kt:122-129 | the dictionary is cleared and refilled in document order (MembersOf) and the returned names are the display names; the selection is untouched |
| CreateExpense.ExpenseForm.ConfirmParticipants | app/src/main/java/com/example/whopaid/ui/expenses/CreateExpenseActivity.kt:219-223 | the selection becomes the uids of the checked names in dictionary order; the dictionary is untouched |
| CreateExpense.SaveExpense | app/src/main/java/com/example/whopaid/ui/expenses/CreateExpenseActivity.kt:232-307 | a saved expense has the selected participants (non-empty), the trimmed non-empty title, the parsed amount as amountRaw (positive), the chosen currency (RON by default) as currencyCode, the payer found by name, createdAt now and the edited id or ""; in RON amountInGroupCurrency equals amountRaw |
| CreateExpense.SaveExpenseCases | app/src/main/java/com/example/whopaid/ui/expenses/CreateExpenseActivity.kt:240-305 | each rejection happens iff its guard, in source order; RON is stored as entered with no request, amountInGroupCurrency == amountRaw; any other currency is convert(amount, code, "RON"), whose failure saves nothing |
| CreateExpense.Commit | app/src/main/java/com/example/whopaid/repo/ExpenseRepository.kt:20-47 | a new expense is stored under the fresh id with that id; an edit is set under its own id; nothing else is written |
| CreateExpense.SaveWrites | app/src/main/java/com/example/whopaid/ui/expenses/CreateExpenseActivity.kt:279-283 | an add creates one new document with its new id and keeps the others; an edit changes only its own document |
| ScanQr.JoinPayload | app/src/main/java/com/example/whopaid/ui/groups/ShowGroupQrActivity.kt:32 | the QR text starts with "JOIN_GROUP:" followed by the id |
| ScanQr.ParseJoinCode | app/src/main/java/com/example/whopaid/ui/groups/ScanQrActivity.kt:133-138 | a group id exactly for texts starting with the prefix, and prefix + id is the text |
| ScanQr.ParseJoinPayload | app/src/main/java/com/example/whopaid/ui/groups/ScanQrActivity.kt:138 | the payload parses back to its id, and only the payload parses to that id |
| ScanQr.BarePrefixAccepted | app/src/main/java/com/example/whopaid/ui/groups/ScanQrActivity.kt:133-138 | the parser accepts the bare prefix, with the empty group id; the document store's reaction to that id is outside the model |
| ScanQr.HandleScannedText | app/src/main/java/com/example/whopaid/ui/groups/ScanQrActivity.kt:131-156 | no join code or nobody signed in: nothing changes; a missing group: the update fails and nothing changes; otherwise only the group's members gets the uid |
| ScanQr.JoinIdempotent | app/src/main/java/com/example/whopaid/ui/groups/ScanQrActivity.kt:146-147 | scanning the same code twice leaves the store as one scan does |
| ScanQr.JoinConsistentIff | app/src/main/java/com/example/whopaid/ui/groups/ScanQrActivity.kt:146-147 | from a consistent store the join stays consistent iff the user already lists the group |
| ScanQr.JoinCanBreakConsistency | app/src/main/java/com/example/whopaid/ui/groups/ScanQrActivity.kt:146-147 | a concrete consistent store that the join leaves inconsistent |
| AuthForms.EmailError | app/src/main/java/com/example/whopaid/ui/auth/RegisterActivity.kt:78-84 | no error iff non-empty and matching the pattern; an empty field says "Please enter your email" |
| AuthForms.PasswordError | app/src/main/java/com/example/whopaid/ui/auth/RegisterActivity.kt:96-102 | no error iff the length, in UTF-16 code units, is at least 6; an empty field gets the screen's "Please enter" message |
| AuthForms.AstralPasswordAccepted | app/src/main/java/com/example/whopaid/ui/auth/RegisterActivity.kt:99 | three emoji make a password of length 6, which is accepted |
| AuthForms.PhoneError | app/src/main/java/com/example/whopaid/ui/auth/RegisterActivity.kt:87-93 | no error iff exactly ten digits; an empty field says "Please enter your phone number" |
| AuthForms.ConfirmError | app/src/main/java/com/example/whopaid/ui/auth/RegisterActivity.kt:105-111 | no error iff non-empty and equal to the password; an empty field says "Please confirm your password" |
| AuthForms.NameError | app/src/main/java/com/example/whopaid/ui/auth/RegisterActivity.kt:72-75 | no error iff the name is non-empty |
| AuthForms.RegisterAcceptedIff | app/src/main/java/com/example/whopaid/ui/auth/RegisterActivity.kt:68-113 | sign-up is accepted iff name and email are non-empty, the email matches, the phone is ten digits, the password is at least 6 UTF-16 code units long and the confirmation equals it |
| AuthForms.BlankIsMissing | app/src/main/java/com/example/whopaid/ui/auth/RegisterActivity.kt:32-93 | a field of blanks is trimmed to nothing and reported as missing, not malformed |
| AuthForms.RegisterForm.constructor | app/src/main/java/com/example/whopaid/ui/auth/RegisterActivity.kt:68 | no field shows an error |
| AuthForms.RegisterForm.Validate | app/src/main/java/com/example/whopaid/ui/auth/RegisterActivity.kt:68-113 | the result is RegisterAccepted; every field is checked and each failing one shows its error, a valid one keeps its previous error |
| AuthForms.RegisterForm.CheckName | app/src/main/java/com/example/whopaid/ui/auth/RegisterActivity.kt:72-75 | the name check sets only the name error |
| AuthForms.RegisterForm.CheckEmail | app/src/main/java/com/example/whopaid/ui/auth/RegisterActivity.kt:78-84 | the email check sets only the email error |
| AuthForms.RegisterForm.CheckPhone | app/src/main/java/com/example/whopaid/ui/auth/RegisterActivity.kt:87-93 | the phone check sets only the phone error |
| AuthForms.RegisterForm.CheckPassword | app/src/main/java/com/example/whopaid/ui/auth/RegisterActivity.kt:96-102 | the password check sets only the password error |
| AuthForms.RegisterForm.CheckConfirm | app/src/main/java/com/example/whopaid/ui/auth/RegisterActivity.kt:105-111 | the confirmation check sets only the confirmation error |
| AuthForms.RegisterForm.Submit | app/src/main/java/com/example/whopaid/ui/auth/RegisterActivity.kt:31-45 | name, email and phone are trimmed, the passwords are not; the register call is made iff the trimmed form is accepted, with those values |
| AuthForms.LoginAcceptedIff | app/src/main/java/com/example/whopaid/ui/auth/LoginActivity.kt:69-91 | sign-in is accepted iff the email is non-empty and matches and the password is at least 6 UTF-16 code units long |
| AuthForms.RegisteredCanLogIn | app/src/main/java/com/example/whopaid/ui/auth/LoginActivity.kt:69-91 | every accepted sign-up form passes the sign-in checks |
| AuthForms.LoginForm.constructor | app/src/main/java/com/example/whopaid/ui/auth/LoginActivity.kt:69 | no field shows an error |
| AuthForms.LoginForm.Validate | app/src/main/java/com/example/whopaid/ui/auth/LoginActivity.kt:69-91 | the result is LoginAccepted; both fields are checked and each failing one shows its error |
| AuthForms.LoginForm.Submit | app/src/main/java/com/example/whopaid/ui/auth/LoginActivity.kt:38-47 | the email is trimmed, the password is not; the login call is made iff the form is accepted, with those values |

## Left out

- The document store, authentication, snapshot listeners, coroutines and toasts: each operation is a function or method on the stored values. Every write is assumed to succeed or fail as a whole. Apart from the "update of a missing document" failure, which is modelled, write failures and concurrent edits by other users are not.
- The expense list is an input already ordered by `createdAt`, as the expenses query returns it. The members query's document order is also an input.
- Amounts are `real`. Floating-point rounding, NaN and infinities are not modelled, and `String.format("%.2f")` and the locale are left out.
- Sending the reminder e-mails (EmailService and the EmailJS call), the debtor's e-mail lookup and the summary dialog are left out. The model covers only the filtering, grouping and totals computed before them.
- QR bitmap encoding and decoding, the camera and the gallery are left out.
- On the map, centering on the first marker, `invalidate()`, the marker anchor and other overlays are left out. `tsToString` is the parameter `format`.
- The exchange-rate HTTP API is the parameter `fetch`, a table of rates or a failure message per base. `toDoubleOrNull` is the parameter `parse`. `Patterns.EMAIL_ADDRESS` is the parameter `emailPattern`.
- The clock (`System.currentTimeMillis()`, `Timestamp.now()`) and auto-generated document ids are parameters (`now`, `newId`, `freshId`).
- `String.compareTo` is modelled on characters, not on UTF-16 code units; the two orders differ only between a character above U+FFFF and one in U+E000–U+FFFF. `String.length` does count UTF-16 code units (`Text.Utf16Length`).
- The e-mail query of `addMemberByEmail` is the parameter `first`, its first hit, constrained by `GroupRepository.QueryResult`.
- `deleteGroup` skips non-string members; group members are typed as strings here, so this case does not arise.
- `saveExpense` returning early when `groupId` is null, the `currentPayerUid` field (written but never read in the saving path), and the success or error toast after the repository write are left out.
- `syncExpenseUI` and `loadExistingExpense` (filling the form for an edit) are left out.
- The balance adapter flipping a row's `settled` flag before `toggleSettlement` is called is left out: the item arrives with its new flag.
- A field of the wrong type in a user document (the `getString` exceptions in `loadMembers` and `loadBalances`) is left out.
- Who may call `removeMember` or `deleteGroup` (the admin checks of the UI) is left out.
- ScanQr.HandleScannedText: a group id is an opaque key of the groups map. The document store's own path rules are not modelled. `document("")` throws before any update, and an id containing '/' names another path. The model instead answers "not found" for "" and treats such an id as a plain key.
- A TextView error cleared by the framework when its field is edited is not modelled; a form field's error changes only through `validate`.
- CurrencyService.Convert: requires `PivotDefined`, that the USD table does not quote `from` as 0. The USD-table step would divide by zero there and produce Infinity or NaN; `ConvertFailsExactly` inherits the same requires.
- CreateExpense.SaveExpense: for a currency other than RON, requires `PivotDefined` for that currency, because that is the case where it calls Convert. RON needs nothing.
- CreateExpense.SaveExpenseCases: the same requires, for the same reason.
- Reminders.CurrencyTotals: its contract states the result through `Totals`; the meaning, one key per currency holding that currency's sum, is stated by `Reminders.TotalsAreSums`.
