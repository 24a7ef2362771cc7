# Money protocols and reversible editors of the shop bot, in Dafny

This project models the parts of the bot that move money or rewrite shared tables, and proves what they
promise over every input, every interleaving and every run. A database transaction, or a single atomic
UPDATE, is one atomic step; between two steps any other run may act. Integers are unbounded, as in Python;
decimals are `real`. `dafny verify dfyconfig.toml` checks everything.

| files | what they model |
|---|---|
| `invoice_protocol.dfy`, `invoice_book.dfy` | crypto invoices: insert first, check for amount clashes afterwards, credit, expire |
| `amounts.dfy`, `transfer_matching.dfy`, `chain_payments.dfy` | half-even amounts, the greedy matcher, and the end-to-end payment run |
| `theme_store.dfy`, `theme_effect.dfy`, `theme_desk.dfy`, `theme_home.dfy` | applying a theme pack with a snapshot, what it leaves behind, undoing it, applying it again |
| `glass.dfy`, `pack_values.dfy`, `theme_layout.dfy`, `theme_parse.dfy`, `theme_normal.dfy`, `theme_reader.dfy`, `theme_witness.dfy` | parsing a pack, writing the clean pack, parsing it again, and packs on which that goes wrong |
| `tag_balance.dfy` | the stack machine that decides whether Telegram accepts a text as HTML |
| `purchase_saga.dfy`, `purchase_desk.dfy` | claim a discount use, debit, store, compensate in reverse |
| `referral_ledger.dfy` | earnings rows, cash-outs and payouts |
| `hourly_billing.dfy`, `billing_ledger.dfy`, `usage_billing.dfy` | reseller billing: rounded carry, folded ledger, compare-and-swap usage charge |
| `help_layout.dfy`, `window_totals.dfy`, `expiry_sweep.dfy` | gap-coded rows, bucketed sums, the keyset-paged sweep |
| `common.dfy`, `orders.dfy` | options, sums over sequences, rows, interleaved runs; sorting by a strict order |

The pattern throughout: a value-level transition function (`Next`, `Record`, `AfterApply`, ...), invariants and
laws proved about every run of it, and classes or methods with the source's own steps and loops whose
contracts say that they do exactly that transition. For the invoice creator and the purchase saga, which
yield between transactions, the method returns its own transactions as ghost data: its contract says that each
is the one its stage calls for, and that the final state is a run of the protocol over them with one block of
arbitrary moves of the others before each of them (`Woven`).

## Where the code differs from what it is described to do

- Normalising a theme pack is not idempotent in general. `unglass_text` takes one pair of brackets off at a
  time, and a styled label is stored unglassed, so a label with nested brackets loses one more pair on each
  pass (or becomes empty and is dropped). `NormalisingAgainChangesNothingIff` gives the exact condition:
  no label written under a plain style is itself bracketed; `NormalisingRawAgainChangesNothingIff` reads it off
  the raw pack. The texts and the layout are always stable.
- `undo_last_import` does not restore everything when two chosen text entries normalise to one (key, language)
  of a stored text (for example languages "FA" and "fa"), or two chosen button entries truncate to one stored
  key: the snapshot of the second entry is the value the first one wrote. `UndoInvertsApplyIff` proves that
  these are the only failures, `LanguageNamedTwiceIsNotUndone` gives a raw pack. On a text that is not stored
  yet, the repeated insert makes the whole apply fail.
- An apply that finds nothing to do in merge mode records nothing, so the undo after it undoes the import
  before it (`NothingAppliedLeavesTheUndo`).
- Once some row of a layout mentions a home key, a `hidden` list holding a list or an object makes
  `_parse_layout` raise TypeError instead of marking the entry invalid. `PackRaisesTypeErrorIff` gives the exact
  condition on the raw pack, `HidingAListRaisesTypeError` a pack.
- A layout that leaves a home key out is offered again after every apply: the bot shows such a key in a
  trailing row of its own, so the menu never equals the pack's rows (`SecondApplyFindsNothingIff`). The same
  condition names the other way to be offered an entry again: two ticked entries that contradict each other.
- `apply_layout` shows the rows it plans if and only if no row of the request repeats a known id that no earlier
  row mentions. A repeated id is numbered twice and keeps the later number, and the gap it leaves breaks the row
  there: x, a, y, a shows as x and y, a (`RepeatInsideARowBreaksIt`). `ApplyLayout` gives the layout for every request.
- A transfer can fit two invoices that do not collide, at a gap of exactly 2e-6; it is then their midpoint
  after rounding and the exact amount of neither (`TransferSharedExactlyAtMidpoint`).

## Model

| member | source | states |
|---|---|---|
| InvoiceProtocol.SuccessfulInvoicesNeverCollide | app/db/crud/cryptopayments.py:268-325 | from any table, in every reachable state of any number of interleaved creators, credits and expiries: a Pending invoice whose creator succeeded and any other settled one of its network, old or new, never collide |
| InvoiceProtocol.QuietSystemIsSeparable | app/db/crud/cryptopayments.py:230-325 | once no creator of a network is still negotiating, every Pending invoice a creator stored collides with no other Pending one; two old rows are exactly as they were at the start |
| InvoiceProtocol.AmountsThroughout | app/db/crud/cryptopayments.py:268-325 | the invariant behind both: a negotiating creator's row stores its local amount, user and network at every check, and settled rows stay separable from those with an owner |
| InvoiceProtocol.CreditsAreExact | app/db/crud/cryptopayments.py:85-139 | over all runs each invoice and each tx hash is credited at most once, exactly the newly Paid invoices are logged, and each wallet equals its start plus its credits |
| InvoiceProtocol.FinalStatusesStay | app/db/crud/cryptopayments.py:56-66 | a Paid or Expired row never changes again, whatever runs later |
| InvoiceProtocol.CreditsThroughout | app/db/crud/cryptopayments.py:85-139 | the credit invariant (unique hashes, one log entry per newly paid row, balanced wallets) holds after every event |
| InvoiceBooks.InvoiceBook.AddOrderWithUniqueAmount | app/db/crud/cryptopayments.py:268-325 | whatever the picker returns and the others do, the run's transactions open it with the call's arguments and are each what its stage calls for in the system it finds, and the others move exactly once before each of them; a success clashes with no other pending invoice and is what the row stores while pending; a failure has one of three reasons (picker raised, order id taken, every look saw a clash); undisturbed with a free first pick it succeeds with that pick |
| InvoiceBooks.InvoiceBook.Negotiate | app/db/crud/cryptopayments.py:285-325 | the loop: on success its last transaction is a look that saw no clash, on failure the discard, with its looks used up unless the picker raised |
| InvoiceBooks.FollowsAt | app/db/crud/cryptopayments.py:268-325 | transaction by transaction, what following a call means |
| InvoiceBooks.StepMeans | app/db/crud/cryptopayments.py:281-325 | the transaction each stage calls for: insert the picked amount, check, write back the next amount picked, or discard |
| InvoiceBooks.InvoiceBook.ClashingOrderIds | app/db/crud/cryptopayments.py:230-243 | reports whether some other Pending invoice of the network with a lower, or higher, order id collides with the amount, and the set of all other Pending amounts of the network, each in terms of the rows |
| InvoiceBooks.InvoiceBook.SetPendingAmount | app/db/crud/cryptopayments.py:246-253 | rewrites the amount of a row that is still Pending and nothing else |
| InvoiceBooks.InvoiceBook.DiscardPendingOrder | app/db/crud/cryptopayments.py:256-265 | deletes a row that is still Pending and nothing else |
| InvoiceBooks.InvoiceBook.ExpirePayment | app/db/crud/cryptopayments.py:56-66 | Pending becomes Expired; any other row is left alone and False returned |
| InvoiceBooks.InvoiceBook.GetUsedTxHashes | app/db/crud/cryptopayments.py:68-83 | the stored ones among the candidates, or the empty set when the lookup fails |
| InvoiceBooks.InvoiceBook.ApproveAndCredit | app/db/crud/cryptopayments.py:85-139 | succeeds exactly when the row is Pending, its user exists and the hash is absent, empty or on no other row; then status, paytime, hash and wallet change in one step as written out, and otherwise nothing changes |
| Amounts.RoundIsTheHalfEvenInteger | app/db/crud/cryptopayments.py:210-218 | the rounding used by quantize is the one half-even integer: nearest, ties to even |
| Amounts.MillionthsDecide | app/db/crud/cryptopayments.py:210-218 | two decimals collide, and a transfer pays an invoice, exactly when the half-even counts of 0.000001 they round to are at most one apart; a count of more than 28 digits never collides and makes the comparison raise |
| Amounts.WholeMillionthsCollideIff | app/jobs/payments/crypto_common.py:42-45 | on whole millionths k and j both rules hold if and only if -1 <= k - j <= 1 |
| Amounts.TrillionthsDecide | app/jobs/payments/ton.py:232-237 | TON's rule accepts exactly equal half-even counts of 0.000000000001 |
| Amounts.UnreadableDecides | app/db/crud/cryptopayments.py:210-218 | an amount no Decimal can be made of collides with nothing, and comparing it with a transfer raises |
| Amounts.SharedTransferIsMidpoint | app/jobs/payments/crypto_common.py:42-45 | a transfer two invoices both accept, and that do not collide, rounds to the middle of amounts exactly 0.000002 apart and is the exact amount of neither |
| Amounts.TransferSharedExactlyAtMidpoint | app/jobs/payments/crypto_common.py:42-45 | both directions: two non-colliding amounts of whole millionths share a transfer if and only if they are 0.000002 apart and it rounds to the middle |
| Amounts.ExactSharedTransferMeansCollision | app/jobs/payments/ton.py:232-237 | two TON invoices accepting one transfer by 12-digit equality collide under the 6-digit rule |
| TransferMatching.MatchTransfers | app/jobs/payments/crypto_common.py:84-123 | confirms are attempted only with accepted, distinct, non-null ids outside the initial set, at most one succeeds per payment, and the two result sets are exactly those of the attempts; either every payment is served (credited, or no fitting free transfer is left over), or the run stopped at a payment one of whose free candidates makes the amount check raise, with all earlier ones served |
| TransferMatching.MatchOne | app/jobs/payments/crypto_common.py:100-123 | the same for one payment, including the exact reason for stopping early |
| TransferMatching.MatchResultMeans | app/jobs/payments/crypto_common.py:84-123 | the result of the matcher in terms of payments, transfers and attempts |
| ChainPayments.ToUnixSeconds | app/jobs/payments/crypto_common.py:48-55 | seconds are kept, milliseconds are scaled down to the second they lie in, missing or negative stamps become 0 |
| ChainPayments.ExpireUnmatched | app/jobs/payments/crypto_common.py:71-81 | calls expire once for each unmatched payment created more than 2400 seconds ago, in list order |
| ChainPayments.OnTimeIffInWindow | app/jobs/payments/crypto_common.py:63-69 | a transfer is in the window if and only if its second, stamped in seconds or milliseconds, lies from the creation to 1920 seconds later, or its time is unknown, that is allowed, and 1800 seconds have not passed |
| ChainPayments.ReadableRunsFinish | app/jobs/payments/crypto_common.py:36-45 | when every invoice amount and every passing transfer amount can be quantised, the run is not cut short |
| ChainPayments.ExactPaymentIsMatched | app/jobs/payments/crypto_common.py:63-123 | for readable amounts and distinct ids, an exact payment made on time (within 1920 seconds of the creation) with an unused id, for an invoice that collides with no other, is matched to it and not expired, whatever the order of payments and candidates and however late the run is |
| ChainPayments.AttemptsAreOnTime | app/jobs/payments/crypto_common.py:84-123 | whatever a run confirms was made on time, passed the check of its network, has an unused id, and the amount of its invoice by the rule of its network |
| ChainPayments.CheckPayments | app/jobs/payments/crypto_common.py:63-123 | the body of check_payments is such a run; for readable amounts it ends normally, expires exactly the unmatched overdue invoices in order, and misses no exact payment |
| ChainPayments.SharedTransferCollides | app/jobs/payments/crypto_common.py:42-45 | an invoice accepting the exact amount of another collides with it, under the 6-digit and the 12-digit rule |
| ChainPayments.CreatedInvoicesStandAlone | app/db/crud/cryptopayments.py:31-39 | in the pending list a job reads in a quiet reachable state, an invoice a creator stored collides with no other |
| ChainPayments.ExactPaymentIsNeverMissed | app/jobs/payments/crypto_common.py:63-123 | end to end: after any run of the invoice protocol from any table, on a network no creator is negotiating on, an unused in-window transfer of exactly the stored amount is matched to its invoice by the job, which does not expire it |
| ThemeStore.UndoRestoresEverything | app/services/theme_pack.py:686-778 | restoring the snapshot of an apply gives both maps back exactly, for any chosen entries, mode and layout, including deletion of created buttons |
| ThemeStore.UndoIsExactIffNothingTwice | app/services/theme_pack.py:834-870 | for entries that differ from the store, the undo is exact if and only if no text slot and no stored button was chosen twice |
| ThemeStore.TextComesBack | app/services/theme_pack.py:834-855 | one slot: edited at most once it comes back, written twice with other values it does not |
| ThemeStore.ButtonComesBack | app/services/theme_pack.py:857-870 | one stored button: dressed at most once its look and place come back, dressed twice with other looks they do not |
| ThemeStore.UndoneButtons | app/services/theme_pack.py:857-870 | undo leaves exactly the original button keys, every place as before, looks as the snapshot says |
| ThemeWitnesses.LanguageNamedTwiceIsNotUndone | app/services/theme_pack.py:711-717 | a concrete raw pack naming one language as "FA" and "fa": it parses to two entries for one text, and merged over another stored value it commits and is not restored by undo |
| ThemeStore.MatchingMeansNothingToPaint | app/services/theme_pack.py:585-592 | a button matches an entry exactly when writing the entry would change nothing |
| ThemeDesk.UndoInvertsApply | app/services/theme_pack.py:822-876 | after a committed apply the next undo restores both maps, cannot fail, returns that import's id, and the one after it finds nothing to undo |
| ThemeDesk.UndoInvertsApplyIff | app/services/theme_pack.py:654-876 | with no edit since the preview, that undo is exact if and only if nothing was chosen twice |
| ThemeDesk.CommittedRecordIsCoherent | app/services/theme_pack.py:711-717 | a stored snapshot never says a text was both absent and present, and undoing it at once inserts no row twice |
| ThemeEffects.TextAfterApply | app/services/theme_pack.py:697-717 | every text after an apply, in either mode: the last chosen value with the old banner kept, else gone if a replace did not spare it, else as before |
| ThemeEffects.MentionsButtonMeans | app/services/theme_pack.py:704-709 | a button is mentioned if and only if the pack has an entry under its key |
| ThemeEffects.ButtonAfterApply | app/services/theme_pack.py:704-758 | every button after an apply: it exists exactly if stored before, chosen or placed; each field of its look is the last one chosen, else the built-in one if reset, else the old one; its place is where the new layout puts it |
| ThemeEffects.ReplaceLeavesOnlyThePack | app/services/theme_pack.py:133-141 | after a replace every stored text is mentioned by the pack or private, and every unmentioned button has no colour, no icon and a blank or its built-in label |
| ThemeEffects.UnmentionedAfterReplace | app/services/theme_pack.py:704-709 | after a replace an unmentioned button that had no colour, no icon and a blank or built-in label is as it was, and any other one has an empty label, no colour and no icon |
| ThemeEffects.SparedMeans | app/services/theme_pack.py:680-700 | a replace spares the texts under a private key and those the pack has an entry for in that language, valid or not |
| ThemeHome.SecondApplyFindsNothingIff | app/services/theme_pack.py:595-675 | merging the same ticked entries again finds nothing to do if and only if no two ticked valid entries contradict each other and a ticked layout places every home key |
| ThemeHome.TickedLayoutIsCurrentIff | app/telegram/keyboards/home.py:69-83 | after an apply that ticked it, a layout reads back as the current menu if and only if it places every home key |
| ThemeHome.LaidOutIsCurrentIff | app/telegram/keyboards/home.py:69-83 | the same for any button table that stands as a clean layout says: sorting and grouping the placed keys gives its rows back |
| ThemeHome.IsCurrentMeans | app/services/theme_pack.py:621-629 | a layout counts as the current one when the menu shows its rows and hides exactly its hidden keys |
| ThemeReader.ParsedPackHasOneLayout | app/services/theme_pack.py:268-306 | every accepted raw pack brings one layout at most, and a clean one |
| ThemeDesk.ThemeTables.Apply | app/services/theme_pack.py:654-782 | the transaction of the source, with its loops, over every stored row: nothing chosen changes nothing, a repeated insert rolls back, otherwise rows, snapshot, record and pruning are as specified |
| ThemeDesk.CommittedKeepsTen | app/services/theme_pack.py:744-782 | a committed apply adds one record under the next id; of more than ten records only the newest ten stay, unless the pruning failed |
| ThemeDesk.ThemeTables.UndoLastImport | app/services/theme_pack.py:822-876 | undoes the newest unrestored import or reports that there is none; a failed transaction changes nothing |
| ThemeDesk.NothingAppliedLeavesTheUndo | app/services/theme_pack.py:672-675 | an apply finds nothing to do exactly when nothing is chosen in merge mode, and the undo after it is the undo there was before it |
| ThemeDesk.DropUnmentioned | app/services/theme_pack.py:697-703 | replace mode keeps exactly the mentioned and the private texts, and records each row it deletes |
| ThemeDesk.ResetUnmentioned | app/services/theme_pack.py:704-709 | replace mode leaves every mentioned button as it was, and every unmentioned one without colour, icon or label of its own; the others get the blank look, and the old looks are recorded |
| ThemeDesk.WriteChosen | app/services/theme_pack.py:711-717 | writes the chosen texts with their snapshots, and a unique violation happens exactly when one missing slot is inserted twice |
| ThemeDesk.DressChosen | app/services/theme_pack.py:724-743 | writes the chosen looks, creating missing buttons and snapshotting only keys not created by this apply |
| ThemeDesk.PutTextsBack | app/services/theme_pack.py:834-855 | every entry's row ends as the snapshot's last word on it; one missing row is inserted twice exactly when the record names it twice |
| Glass.UnglassUndoesGlass | app/utils/text/glass.py:19-39 | unglassing a glassed label gives the label without its outer spaces |
| Glass.UnglassTwice | app/utils/text/glass.py:27-39 | unglassing twice equals unglassing once if and only if no brackets are left |
| Glass.NestedBracketsComeOffOneAtATime | app/utils/text/glass.py:27-39 | a label for which the two differ |
| Glass.UnglassTextIs | app/utils/text/glass.py:27-39 | a label that is one pair of corner brackets around something loses them and the spaces they leave, any other label only its outer spaces |
| Glass.GlassTextIs | app/utils/text/glass.py:19-24 | a label is put between the corner brackets U+300C and U+300D after one space, an empty one between them alone |
| Glass.SpacesAre | app/utils/text/glass.py:27-39 | the characters that stripping takes off, one by one |
| PackValues.ReadUndoesShow | app/services/theme_pack.py:378-385 | an icon written as decimal digits reads back as the same number |
| PackValues.DigitsAre | app/services/theme_pack.py:378-385 | the ten digits an icon is written with |
| ThemeLayout.ParseLayout | app/services/theme_pack.py:396-427 | a usable layout has no empty row and no repeated key, keeps the first occurrences of allowed keys in order, and hides exactly the placed keys listed as hidden, sorted |
| ThemeLayout.CleanLayoutParsesToItself | app/services/theme_pack.py:396-427 | parsing a clean layout gives the same rows and the same hidden keys |
| ThemeLayout.TypeErrorIffUnhashableHidden | app/services/theme_pack.py:396-427 | cleaning a layout raises TypeError if and only if some row mentions an allowed key and the hidden list holds a list or an object |
| ThemeLayout.HiddenMeans | app/services/theme_pack.py:398-400 | a missing or empty hidden entry, of whatever type, hides nothing |
| ThemeReader.ParseTexts | app/services/theme_pack.py:309-344 | one entry per language, valid exactly when key, language, shape and checks pass |
| ThemeReader.TextEntryMeans | app/services/theme_pack.py:309-344 | a text is accepted if and only if its key is known, of at most 100 characters and not private, its language is fa or en, and its value is a string of 1 to 8192 characters, not blank, that the text checks pass |
| ThemeReader.ParseButton | app/services/theme_pack.py:347-393 | a button entry is valid exactly when every given field is, and its label is rewritten the way its style shows it |
| ThemeReader.ButtonEntryMeans | app/services/theme_pack.py:347-393 | a button entry gives a look if and only if it has a field and each field it has is accepted, its label written the way its style shows it |
| ThemeReader.LabelMeans | app/services/theme_pack.py:362-371 | a label is accepted when the text inside its brackets has 1 to 100 characters |
| ThemeReader.StyleMeans | app/services/theme_pack.py:372-377 | the five styles |
| ThemeReader.IconMeans | app/services/theme_pack.py:378-385 | an icon is a number from 0 to 2^63 - 1, given as one or as its 1 to 19 digits |
| ThemeReader.ParseButtons | app/services/theme_pack.py:347-393 | one entry per button key, each valid one within its limits |
| ThemeReader.ParsePack | app/services/theme_pack.py:268-306 | the refusals in order; an accepted pack has only checked entries, at most 1000 of them, and one layout at most |
| ThemeReader.RefusalsMean | app/services/theme_pack.py:268-291 | the refusals in order, with the format name, version 1, 1000000 bytes and 1000 entries written out |
| ThemeReader.VersionMeans | app/services/theme_pack.py:274-278 | the version is an integer, or a boolean that counts as 1 or 0 |
| ThemeReader.SectionMeans | app/services/theme_pack.py:282-286 | a missing or falsy section counts as an empty dictionary, any other one is taken as it is |
| ThemeNormal.PackRaisesTypeErrorIff | app/services/theme_pack.py:268-306 | parsing raises TypeError if and only if the pack gets as far as such a layout |
| ThemeWitnesses.HidingAListRaisesTypeError | app/services/theme_pack.py:396-427 | a concrete pack on which it does |
| ThemeReader.PackFromItems | app/services/theme_pack.py:884-915 | collects the valid entries into a pack with unique keys whose every part passes the checks again |
| ThemeNormal.NormalisingAgainChangesNothingIff | app/services/theme_pack.py:268-427 | for every raw pack with a valid entry, within the size limit, the clean pack parses again with the same texts and layout, and is unchanged if and only if no plain-styled label is bracketed |
| ThemeNormal.NormalisingRawAgainChangesNothingIff | app/services/theme_pack.py:268-427 | the same condition read off the raw pack: no button's last valid entry puts a plain style on a label in two pairs of brackets |
| ThemeNormal.PaintComesBack | app/services/theme_pack.py:347-393 | one button: written out and parsed again it is the same if and only if its plain label is not bracketed |
| ThemeNormal.ParsedPackIsValid | app/services/theme_pack.py:884-915 | the clean pack of any accepted raw pack is valid and no larger than the entry limit |
| ThemeNormal.NestedBracketsChangeTwice | app/services/theme_pack.py:386-388 | a concrete styled label that changes on the second pass as well |
| ThemeWitnesses.NestedPackChangesAgain | app/services/theme_pack.py:268-427 | a concrete raw pack whose clean pack is not stable |
| TagBalance.MachineAcceptsExactlyTheGrammar | app/services/theme_pack.py:175-198 | the machine accepts a tag sequence if and only if it is a properly nested forest of Telegram tags |
| TagBalance.KnownTags | app/services/theme_pack.py:70-73 | a lone element is accepted exactly for the sixteen tags Telegram knows |
| TagBalance.HtmlIsBroken | app/services/theme_pack.py:193-198 | the parser loop returns True exactly for ill-formed sequences |
| TagBalance.ForestIsNeutral | app/services/theme_pack.py:175-190 | a nested forest leaves any stack unchanged |
| TagBalance.AcceptedIsForestThenClosing | app/services/theme_pack.py:175-190 | whatever is accepted from a stack closes that stack with a forest at every level |
| PurchaseSaga.SagaConserves | app/services/webapp_purchase.py:242-289 | over every interleaving and from any shop, uses of a code minus its start are the open claims plus completed discounted purchases and pass neither the limit nor, if they began beyond it, their start; each wallet is its start plus gifts minus unrefunded debits and never goes into debt or deeper into it |
| PurchaseSaga.FailedPurchasesNetToZero | app/services/webapp_purchase.py:242-289 | when all purchases have ended, codes and wallets are as if the failed ones had never been made |
| PurchaseSaga.FinalPriceRoundsUp | app/services/webapp_purchase.py:386-402 | for any base and percentage, the least whole price of at least 0 that covers the discounted base; a discount never raises it |
| PurchaseDesks.RegisteredPrice | app/services/webapp_purchase.py:386-402 | a purchase without a code is registered at the plan's price; with one it is refused unless the code is stored, not past a set expiry, under its limit and public or the buyer's, and then its price is the least whole one covering that code's percentage off |
| PurchaseDesks.PayableMeans | app/db/crud/discount_codes.py:92-130 | the wallet covers the price, and a named code is under its limit, not past its expiry, and public or the buyer's when it is claimed |
| PurchaseDesks.PurchaseDesk.ClaimDiscountUse | app/db/crud/discount_codes.py:92-130 | adds one use exactly when the code is stored, under its limit, not past its expiry, and public or the buyer's |
| PurchaseDesks.PurchaseDesk.ReleaseDiscountUse | app/db/crud/discount_codes.py:132-144 | takes one use back, never below zero |
| PurchaseDesks.PurchaseDesk.UpdateUserMoney | app/db/crud/user.py:611-634 | adds to the wallet, or refuses a result below zero when that is not allowed |
| PurchaseDesks.PurchaseDesk.ConfirmPurchase | app/services/webapp_purchase.py:181-289 | the purchase's transactions open it with the call's arguments and are each what its stage calls for in the shop it finds, and the others move exactly once before each of them; the purchase has the price and code it was priced with and ends Done or fully compensated; undisturbed it succeeds exactly when the code is accepted and claimable, the wallet covers the price, and panel and store succeed |
| ReferralLedger.PayoutsMatchTheirRows | app/db/crud/referral_payouts.py:132-252 | every non-rejected payout equals the sum of its rows, a row is requested if and only if its payout is a pending card payout, and a user has at most one pending payout |
| ReferralLedger.FinalRowsNeverChange | app/db/crud/referral_payouts.py:215-252 | paid and converted rows never change and rows keep their owner and amount |
| ReferralLedger.EarningsAreConserved | app/db/crud/referral_payouts.py:53-78 | available plus requested plus paid plus converted equals all earnings ever booked |
| ReferralLedger.WalletsMatchConversions | app/db/crud/referral_payouts.py:132-212 | what wallets got beyond direct rewards and bonuses is exactly the converted sum |
| ReferralLedger.ReferralBooks.ProcessReferralReward | app/db/crud/referral.py:263-335 | one reward row per pair of users, with amounts of at least 0, and both wallet increments in the same step |
| ReferralLedger.ReferralBooks.CashOutEarnings | app/db/crud/referral_payouts.py:132-212 | moves every available row of the user onto one new payout, or does nothing |
| ReferralLedger.CashOutMeans | app/db/crud/referral_payouts.py:132-212 | when a cash-out succeeds and what it leaves, row by row |
| ReferralLedger.ReferralBooks.SettlePayout | app/db/crud/referral_payouts.py:215-252 | pays a pending payout's rows out or makes them available again |
| ReferralLedger.SettleMeans | app/db/crud/referral_payouts.py:215-252 | what settling leaves, row by row |
| ReferralLedger.ReferralBooks.EarningsSummary | app/db/crud/referral_payouts.py:53-78 | the four sums over the user's rows |
| HourlyBilling.ChargesTrackTheExactPrice | app/jobs/reseller/billing.py:176-239 | over any runs at one rate from carry 0, the carry stays in [0, 1] and charges plus carry differ from rate * minutes / 60 by at most 0.0000005 per run |
| HourlyBilling.BalancedThroughout | app/jobs/reseller/billing.py:176-239 | the same for changing rates and any start carry in [0, 1], with wallet and billed total following the charges |
| HourlyBilling.DueGrowsByThePrice | app/jobs/reseller/billing.py:197-201 | the exact price they follow grows by rate * minutes / 60 with every billing run and by nothing else |
| HourlyBilling.OutcomeMeans | app/jobs/reseller/billing.py:185-239 | less than 60 seconds or no rate is idle; otherwise the charge is the whole part of rate * minutes / 60 plus the carry, billed if the wallet holds it and it is at least 1 |
| HourlyBilling.ClockMeans | app/jobs/reseller/billing.py:186 | billing starts at the last billed moment, failing that at the account's creation, failing that now; a 0 counts as missing |
| HourlyBilling.ProcessMeans | app/jobs/reseller/billing.py:185-239 | the new account, field by field, for each outcome |
| HourlyBilling.TruncateMeans | app/jobs/reseller/billing.py:200 | the charge is cut toward zero, from either side |
| HourlyBilling.Round6Means | app/jobs/reseller/billing.py:201 | the carry is kept at the half-even count of 0.000001 |
| HourlyBilling.EventMeans | app/jobs/reseller/billing.py:151-239 | what a top-up, a reactivation and one job run do to the account and to the tally of runs, minutes, charges and top-ups |
| HourlyBilling.ClockAdvancesByTheMinutesBilled | app/jobs/reseller/billing.py:185-200 | a billing run moves last_billed_at, or on the first run the creation time, by exactly 60 seconds per billed minute, never past now and to less than a minute behind; nothing else in the job moves it |
| HourlyBilling.ClockOverRuns | app/db/crud/reseller_accounts.py:200-243 | the same over any run without a clock reset, from the first run on |
| HourlyBilling.HourlyAccount.ProcessHourly | app/jobs/reseller/billing.py:176-239 | one hourly run: its outcome, the new account state (suspended only if the suspension goes through) and the ledger row |
| BillingLedger.FoldKeepsTotals | app/db/crud/reseller_billing_snapshots.py:202-238 | the folded ledger has the amounts and minutes of the plain list of charges |
| BillingLedger.TotalsMeans | app/db/crud/reseller_billing_snapshots.py:202-238 | the same with the two sums written out: amounts of an account's rows, and minutes of its hourly rows |
| BillingLedger.FoldHasOneRowPerHour | app/db/crud/reseller_billing_snapshots.py:202-238 | at most one hourly row per account and clock hour |
| BillingLedger.FoldKeepsUsageRows | app/db/crud/reseller_billing_snapshots.py:202-238 | usage rows are untouched, in order |
| BillingLedger.SumSinceIsExact | app/db/crud/reseller_billing_snapshots.py:272-289 | the sum since a time is the charge-by-charge sum, less only hourly charges of the first partial hour, and exact on the hour |
| BillingLedger.SumSinceMeans | app/db/crud/reseller_billing_snapshots.py:272-289 | the same with the weights written out: an hourly charge counts from the start of its hour of 3600 seconds |
| BillingLedger.Ledger.AddHourlyCharge | app/db/crud/reseller_billing_snapshots.py:202-238 | adds to the hour's row or inserts it |
| BillingLedger.AddHourlyMeans | app/db/crud/reseller_billing_snapshots.py:202-238 | the charge goes into the first row of its account and hour, amount and minutes added and the rate replaced if one is given, or becomes a row |
| BillingLedger.Ledger.SumBilledSince | app/db/crud/reseller_billing_snapshots.py:272-289 | the sum of an account's rows from a time on |
| UsageBilling.ChargesFormAChain | app/db/crud/reseller_billing_snapshots.py:138-200 | for any interleaving each charge's baseline is where the last one left the counter, wallet plus ledger is conserved, and the billed total grows by the ledger sum |
| UsageBilling.SameBaselineNeedsAReturn | app/db/crud/reseller_billing_snapshots.py:138-200 | two successful charges from one baseline need the counter to have been moved back to it in between |
| UsageBilling.GrowingCounterIsBilledOnce | app/services/reseller/usage_meter.py:15-25 | while the counter only grows, no traffic is billed twice |
| UsageBilling.BilledBytesFollowTheCounter | app/services/reseller/usage_meter.py:15-25 | over any chain of charges the billed bytes add up to what the counter moved, plus what each panel reset made it forget |
| UsageBilling.NoDebtNoNegative | app/db/crud/reseller_billing_snapshots.py:138-200 | without debt allowed a charge never makes the wallet negative |
| UsageBilling.NoDebtThroughout | app/db/crud/reseller_billing_snapshots.py:138-200 | nor does any run of such charges |
| UsageBilling.UsageAccount.RecordUsageCharge | app/db/crud/reseller_billing_snapshots.py:138-200 | the verdict, the new state and the returned balance of one call |
| HelpLayout.HelpMenu.ApplyLayout | app/db/crud/help_buttons.py:153-190 | numbers stay unique after every row update; the menu then shows the plan with each row broken behind every button that stands again later in it, and so the plan itself if and only if no row of the request repeats a known id that no earlier row mentions |
| HelpLayout.PartialUpdateStaysUnique | app/db/crud/help_buttons.py:175-187 | while parked or final numbers are written one row at a time, in any order, numbers stay unique |
| HelpLayout.PlanCoversOnce | app/db/crud/help_buttons.py:163-173 | the plan's rows are disjoint, non-empty and cover every button |
| HelpLayout.CleanRequestCleanPlan | app/db/crud/help_buttons.py:163-173 | a request with no repeat inside a row gives a plan with none |
| HelpLayout.PlanRepeatsIff | app/db/crud/help_buttons.py:163-173 | a plan repeats an id inside a row if and only if some row of the request repeats a known id no earlier row mentions; unknown and taken ids do no harm |
| HelpLayout.CleanRequestIsShownFirst | app/db/crud/help_buttons.py:163-173 | for disjoint rows without repeats and of known ids, the plan is those rows followed by every other button in a row of its own, in the old order |
| HelpLayout.NumberedPlanIsShown | app/routers/panel/help_buttons.py:108-117 | for any plan, splitting the written numbers at gaps gives each row back, broken where a button gave its earlier number up |
| HelpLayout.ShownIsPlanIff | app/db/crud/help_buttons.py:175-187 | a plan without empty rows is shown as it is if and only if none of its rows repeats an id |
| HelpLayout.LayoutOf | app/routers/panel/help_buttons.py:108-117 | the loop that reads the rows returns the layout of the numbers |
| HelpLayout.RepeatInsideARowBreaksIt | app/db/crud/help_buttons.py:163-173 | a concrete request: the row x, a, y, a is planned as it stands and shown as the row x and the row y, a |
| HelpLayout.NextRowIsLast | app/db/crud/help_buttons.py:192-199 | a button added at the next row number is one extra last row |
| HelpLayout.NextRowNumberMeans | app/db/crud/help_buttons.py:192-199 | two more than the largest number, or 1 when there is none or it is 0 |
| WindowTotals.WindowSums | app/panel/queries.py:135-166 | both branches: entry i is the sum of the rows whose bisect_right index is i + 1, for all rows and increasing boundaries |
| WindowTotals.WindowTotals | app/panel/queries.py:135-166 | entry i is what the rows stamped in [boundaries[i], boundaries[i + 1]) add up to, counting or summing, and all entries together what the rows from the first boundary to the last add up to |
| WindowTotals.TotalsConserve | app/panel/queries.py:135-166 | the entries up to any boundary add up to all rows before it |
| WindowTotals.BisectSplits | app/panel/queries.py:135-166 | bisect_right separates the boundaries up to the stamp from those after it |
| WindowTotals.StartIsBucket | app/panel/queries.py:148-153 | the modulo expression names the same bucket as bisect_right |
| ExpirySweep.ServiceTable.HandleServiceExpiration | app/jobs/services/expiration.py:316-395 | a run in which nothing raises visits exactly the services owed a notice at its start, in order, once; a run that raises stops right after the first service whose notice raises, and raises only then; flags and notices are those of the visits, and over any runs and any writes in between, a notice is delivered again only after its flag was reset |
| ExpirySweep.SweepMeans | app/jobs/services/expiration.py:238-313 | what a run nothing stops does to every row: a service of its panels expiring within 86400 seconds and not told so gets the expiry notice and flag, an expired paid one not warned gets the grace notice and flag, each if sending got through, and no other row changes |
| ExpirySweep.OwedMeans | app/db/crud/services.py:571-618 | which rows the query returns |
| ExpirySweep.ListingOrder | app/db/crud/services.py:603-611 | they are visited by expiration time, then by code |
| ExpirySweep.HaltsMeans | app/jobs/services/expiration.py:238-313 | a visit raises exactly when sending the notice its row is owed raises, delivered or not |
| ExpirySweep.ServiceTable.ProcessBatch | app/jobs/services/expiration.py:238-313 | one page: what it delivers, the flags it sets, and that it stops right after the first service that raises |
| ExpirySweep.ServiceTable.OtherWrites | app/services/billing/renewal.py:148-165 | arbitrary writes between runs, flag resets included, keep the once-per-reset invariant, and log every reset of a delivered notice |
| ExpirySweep.ServiceTable.Flush | app/jobs/services/expiration.py:223-235 | sets the pending flags and clears both lists |
| ExpirySweep.ServiceTable.UpdateServicesBulk | app/db/crud/services.py:169-191 | chunked updates set the flag on exactly the given codes |
| ExpirySweep.RestOfListing | app/db/crud/services.py:571-618 | after some pages have been flagged, the query beyond the cursor lists exactly the rest of the first listing |
| ExpirySweep.PageIsNext | app/db/crud/services.py:571-618 | the next page continues the first listing, and a short page is its end |

## Left out

- Input and output: explorer and gateway calls, Telegram sending, panel API calls, notice texts and logs appear as parameters, success or failure choices, or not at all.
- `pick_amount` is an arbitrary function; how amounts are chosen is not modelled.
- Database errors, except the failed lookup of used hashes, the unique violations of the theme tables and a failed pruning.
- `update_payment_status`, direct `add_order_crypto_payment` calls and the other gateways' credits: they bypass the amount protocol.
- Floating point in hourly billing: rates, carries and prices are exact reals with the source's 6-digit rounding.
- HourlyBilling.HourlyAccount.ProcessHourly: the wallet debit and the state patch are one step here and two transactions in the source; a crash between them is not modelled.
- `usage_charge` and the live unit price are parameters of the usage charge; `usage_delta` is modelled.
- ExpirySweep.ServiceTable.HandleServiceExpiration: a process that dies between a delivery and the flush of its flags would deliver again; only exceptions inside the batch are modelled. Services do not change under the sweep except for its own flags; between runs anything may happen to them. NULL codes are not modelled.
- ExpirySweep.ServiceTable.UpdateServicesBulk: the codes are written in the given order instead of sorted; the chunks are in one transaction, so only the grouping into chunks differs.
- PurchaseDesks.PurchaseDesk.ConfirmPurchase: creating and removing the panel user, and the referral payout after a success, are left out; the failed debit, the failed store and the refused claim are in.
- Admin edits that reset counters or balances (`reset_times_used`, `adjust_balance`): they break conservation by design.
- ThemeDesk.ThemeTables.Apply: created buttons are kept as a set, and row ids of recreated texts are not modelled. The preview reads its rows in another transaction, so the rows it saw and its verdict on the layout are parameters; ThemeHome says what that verdict is.
- ThemeHome.TickedLayoutIsCurrentIff: the menu is read by sorting all placed keys by row, position and key and splitting where the row changes; the source groups by row first and sorts each group. Whether the admin changed the layout at all, which decides only between "new" and "changed", is left out.
- ThemeReader.ParsePack: the pack's `name` and `source`, the warnings and item titles are left out; lower-casing, placeholder and HTML checks of a text, the decimal value of a character and the encoded size are parameters. That lower-casing keeps "fa" and "en" and that ASCII digits have their value are hypotheses.
- ThemeNormal.NormalisingAgainChangesNothingIff: that the clean pack is within the byte limit is a hypothesis, since added glass brackets and the source block can make it larger than the raw one.
- Building a pack from the bot, the pack library, settings and keyboard caches, statistics and plain getters: straight reads and writes without a property of their own.
