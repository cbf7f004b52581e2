# Verified model of the VPN subscription services

A model, in Dafny 4.11, of the shared logic behind a bot and its web and Android front ends that sell VPN
subscriptions, with proofs of what that logic keeps. `dafny verify dfyconfig.toml` checks the project.

The services keep accounts, orders and links to profiles in their own database; the profiles themselves live on a
remote panel that can fail before a request takes effect, or take effect and lose the reply.

| modules | what they model |
|---|---|
| `Usernames`, `Markers`, `Renewal` | panel user names, the provisioning and delivery markers in a profile's description, expiry arithmetic |
| `Panel`, `Provisioning`, `Delivery`, `DeliveryWorth` | delivery of a paid order against the panel, whole runs of retries, what a delivery is worth |
| `Ownership`, `AccountStore`, `Merge`, `OwnershipRuns` | which account owns which profile, the operations that change it, account merges |
| `PanelIndex`, `Backfill`, `BackfillResults`, `BackfillRun` | the one-off script that audits the ownership graph, plans repairs, applies them and audits again, and what every account gets |
| `Wallet`, `WalletAnswers`, `WalletStore`, `WalletRuns` | balances and their ledger, promo codes, referral rewards: who is paid, who may redeem |
| `Winners`, `Giveaways`, `GiveawayEntry`, `GiveawayStore`, `GiveawayRaces` | giveaways from draft to redraw, who gets a ticket, and calls that overlap |
| `Menu`, `MenuAgreement`, `MenuShown` | the tariff menu read from the top and from the bottom, and what exactly it shows |
| `SingleFlight`, `CacheAnswers` | the cache that runs one look-up per key at a time, and when it answers without one |
| `Base64`, `Blob`, `BlobAnswers` | the encrypted settings blob, its bytes and its errors |
| `Latency`, `Compaction`, `CompactionStore` | latency histograms, percentiles, hourly compaction |
| `Wrappers`, `Sorting` | `Option` and `Result`, sorting by a total order |

How it is put together: tables are maps from keys to rows, lists where the order matters. A call that raises leaves
the tables as they were. Code that updates state in place is a class whose methods are proved against functions or
relations on the tables' values, and the laws are proved about those over whole runs. What such a function answers is
stated once more from the tables alone, without the helpers that the code and the function share. A coroutine is a
sequence of steps cut at its awaits. The panel's failures, other people's changes and random choices are
nondeterministic choices, so a proof covers all of them.

Where a law does not hold of the code without a condition, the condition is exact and the failing case is shown:

- `Renewal.DriftBoundIff`, `Renewal.LongExtensionCollapses`: a total above 10000 days, which the code takes for a
  corrupt value, leaves a profile with one day.
- `DeliveryWorth.RenewalIsWorth`, `DeliveryWorth.CreationIsWorth`: so does an order of more than 10000 days.
- `Usernames.SameNameIff`, `Usernames.CollisionExample`: two ordinals of one account can be given the same name.
- `Provisioning.RetryAdoptsIff`, `Delivery.SecondProfileIff`, `Delivery.MoreLinksCreateAnother`: when the name of a
  created profile is no candidate any more, or a candidate below it becomes free, between two attempts, the retry
  creates a second profile.
- `Markers.RenewalPassesForIff`: markers are found by substring, so a renewal for one order passes for the delivery of
  every order whose id is a prefix of its own, and of no other.
- `Delivery.GrantedAgainIff`, `Delivery.InterleavedOrdersGrantTwice`, `Delivery.PrefixOrderIsSwallowed`: hence a
  delivered order that is retried after another order's renewal grants its days again, and an order with a prefix id
  is reported delivered without a grant.
- `Merge.MergeKeepsIff`, `OwnershipRuns.StrandedMergeBreaks`: a merge can leave an account projecting a profile that
  a third account owns.
- `Backfill.ReadyMeaning`, `Backfill.ReadyBreaksInvariant`: `ready` does not cover accounts that have links but no
  projection.
- `WalletRuns.MergedRunsIff`, `WalletRuns.MergedHistoryIsNotRunning`: after a merge `balance_after` runs only if each
  account stood at zero whenever the other moved.
- `WalletRuns.ClosedFormIff`, `WalletRuns.LoweredRateLeavesMore`: after settings were lowered a code may have been paid
  more than the closed form says.
- `Latency.ZeroIff`: percentiles are monotone up to a fraction of one and read zero above.
- `GiveawayRaces`: calls that decide on a giveaway read without the lock of a draw. A late join or invitation changes
  the reported numbers exactly when it is stamped earlier than a winning ticket; a late close or activation breaks the
  invariant exactly when winners were drawn meanwhile, and a draw closed that way stays closed
  (`GiveawayRaces.ClosedDrawIsStuck`); a late update changes the rules exactly when it sends new ones.

What the delivery theorems assume, besides unique panel names: the first attempt passes the stored target, if there is
one, and retries carry the same order data; between attempts nobody renames or rewrites the description of a marked
profile, marks another, frees a candidate name that was taken, or changes the buyer's row or links (within an attempt
another session may link the profile being attached, to anybody); panel ids are not reused; a delivery is not cancelled
half-way.

## Model

| member | source | states |
|---|---|---|
| Delivery.Attempts | packages/subscription_delivery/subscription_delivery/delivery.py:360-790 | Over any number of attempts at one order, each passing the target stored by then, with panel calls failing before or after their effect and others acting in between: the ordered days are granted at most once, at most one profile ever carries a marker of the order, no existing link changes its account, nothing is written to a profile that existed before unless it is linked to the buyer, and once an attempt succeeds the days went, exactly once, to a profile the buyer owns. |
| Delivery.RetryLoop | services/bot/app/api/handlers.py:222-254 | The loop around a delivery, with the target read once before it: the same guarantees; the loop stops at success, at a lasting failure or after three attempts; if it did not succeed, the stored target is still the one read, so that it can be run again. |
| Delivery.OneMore | packages/subscription_delivery/subscription_delivery/delivery.py:360-790 | One more attempt of a run adds at most one link of the buyer and keeps what has held since the start; it leaves the order ready for the next, with the same target unless it succeeded. |
| Delivery.Deliver | packages/subscription_delivery/subscription_delivery/delivery.py:360-790 | One attempt, at an order with or without a row: the order stays safe; success has delivery status 1, order confirmed, the profile as stored target, the buyer's link and the one grant; every pending result is stored as delivery status 0, order pending, with its reason, and leaves the stored target as it was; whatever the result, a profile that was renewed is linked to the buyer, no link moves and no other order is touched; on a conflict the buyer's links stay as they were. Without faults the whole outcome is determined. |
| DeliveryWorth.RenewalIsWorth | packages/subscription_delivery/subscription_delivery/delivery.py:683-697 | What a delivery on a reliable panel is worth to a profile that is not active without a limit: it is active until now plus the ordered days, keeps no limit but the order's, and carries the order's text behind its marker; the days are the ordered ones exactly up to 10000; no other profile changes. |
| DeliveryWorth.ExtensionIsWorth | packages/subscription_delivery/subscription_delivery/delivery.py:661-679 | What it is worth to an active profile without a limit: the days on top of what was left, to half a day, a whole number of days from now, never less than before. |
| DeliveryWorth.CreationIsWorth | packages/subscription_delivery/subscription_delivery/delivery.py:458-596 | Where no stored profile is left: the first free candidate name gets a new active profile until now plus the ordered days, with the order's limit and its description in full, linked to the buyer. |
| DeliveryWorth.MarkedIsLeftAlone | packages/subscription_delivery/subscription_delivery/delivery.py:649-654 | A profile that already carries a marker of the order is attached and not written to. |
| DeliveryWorth.RefusalReasons | packages/subscription_delivery/subscription_delivery/delivery.py:382-435 | An order that fails a check gets the reason of the first that fails, and nothing is done. |
| Delivery.Orders.UpdateDeliveryStatus | packages/subscription_delivery/subscription_delivery/delivery.py:209-231 | Writes status and reason of an existing order, sets the order pending or confirmed, and changes nothing else. |
| Delivery.SubscriptionOwner | packages/subscription_delivery/subscription_delivery/delivery.py:251-263 | The linked account, else the account that projects the profile, else none. |
| Delivery.AttachSubscription | packages/subscription_delivery/subscription_delivery/delivery.py:283-357 | Succeeds only with the profile linked to the buyer and stored as target, also when another session linked it to the buyer first; refuses without touching the buyer's row or links; never moves anybody's link; without interference it is DeliveryAttached. |
| Delivery.Check | packages/subscription_delivery/subscription_delivery/delivery.py:382-435 | The checks before any panel call: missing account, bad tariff, target that belongs to somebody else; reported in that order and only then. |
| Delivery.Locate | packages/subscription_delivery/subscription_delivery/delivery.py:422-596 | The stored target if the panel has it, else the profile the loop finds or creates; the order stays safe whatever fails. |
| Delivery.Settle | packages/subscription_delivery/subscription_delivery/delivery.py:598-790 | Attaches before anything is written, and settles the order as stated for a whole attempt. |
| Delivery.Finish | packages/subscription_delivery/subscription_delivery/delivery.py:625-790 | After the attach: the write is skipped for a profile that was just created or carries a marker; otherwise the attached profile is renewed; the result is recorded in the row of the order alone. |
| Delivery.Renew | packages/subscription_delivery/subscription_delivery/delivery.py:646-743 | Only called with the profile linked to the buyer in the store; the request leaves the order untouched or granted exactly once to that profile, and reports success only when granted; without faults the profile is what the rows of `DeliveryWorth` say. |
| Delivery.ConfirmRenewal | packages/subscription_delivery/subscription_delivery/delivery.py:686-725 | A failed write counts as done only if the profile read back carries a marker of the order. |
| Delivery.RenewalMarksOnly | packages/subscription_delivery/subscription_delivery/delivery.py:642-644 | A renewal under the delivery marker leaves exactly the renewed profile marked. |
| Delivery.CandidatesAreBuilt | packages/subscription_delivery/subscription_delivery/delivery.py:459-462 | For 64-bit account ids and 32-bit link counts none of the candidate names is refused. |
| Delivery.ScanAdoptsProvisioned | packages/subscription_delivery/subscription_delivery/delivery.py:481-484 | The loop adopts only a profile with the provisioning marker. |
| Delivery.FaultFreeHalves | packages/subscription_delivery/subscription_delivery/delivery.py:422-790 | Locating and settling together are the outcome stated for a whole attempt without faults. |
| Delivery.Between | packages/subscription_delivery/subscription_delivery/delivery.py:422-461 | What happens between two attempts within the premises leaves the order safe and the buyer's links alone. |
| Delivery.SafeAtFirst | packages/subscription_delivery/subscription_delivery/delivery.py:455-459 | An order with nothing granted and nothing marked is safe, so the guarantees hold from its first attempt. |
| Delivery.GrantsIff | packages/subscription_delivery/subscription_delivery/delivery.py:376-743 | A fault-free attempt grants the days exactly once to what could be seen before it: the located profile if it can be attached and carries no marker, a new one if none is located and a name is free; otherwise not at all. |
| Delivery.GrantedAgainIff | packages/subscription_delivery/subscription_delivery/delivery.py:646-674 | A delivered order whose profile is its target is delivered again by a fault-free attempt if and only if it is accepted, the profile can be attached, and its description has lost both markers. |
| Delivery.InterleavedOrdersGrantTwice | packages/subscription_delivery/subscription_delivery/delivery.py:642-653 | The premise on descriptions is needed: once another order, whose id this one's is no prefix of, has renewed the profile, a retry grants the days a second time. |
| Delivery.PrefixOrderIsSwallowed | packages/subscription_delivery/subscription_delivery/delivery.py:646-653 | An order whose id is a prefix of that of the order that renewed its target last is reported delivered, and nothing is granted. |
| Delivery.SecondProfileIff | packages/subscription_delivery/subscription_delivery/delivery.py:455-596 | A fault-free attempt without a stored profile creates a second one if and only if it is accepted, the scan does not meet the first before a free name, and some candidate is free. |
| Delivery.MoreLinksCreateAnother | packages/subscription_delivery/subscription_delivery/delivery.py:459-485 | When the buyer has gained links since a profile was created and the order has no stored target, the next fault-free attempt creates a second profile: the name of the first is no candidate any more. |
| Delivery.ScanEndsIff | packages/subscription_delivery/subscription_delivery/delivery.py:461-486 | A scan that adopts nothing creates exactly when some candidate is free. |
| Delivery.ExtensionKeepsPromise | packages/subscription_delivery/subscription_delivery/delivery.py:661-674 | A fault-free extension sets the expiry of the drift laws: with at most 10000 days in all, the promised one up to half a day, and never earlier than before. |
| Delivery.NoCandidateIs | packages/subscription_delivery/subscription_delivery/delivery.py:459-462 | Names of ordinals below the number of links are no candidates, but for the one clash of names. |
| Delivery.ReplayChangesNothing | packages/subscription_delivery/subscription_delivery/delivery.py:661-674 | The renewal request is absolute: sending it again, as built at the same instant, changes no profile. |
| Provisioning.FindOrCreate | packages/subscription_delivery/subscription_delivery/delivery.py:455-596 | The loop over candidate names: at most one profile is created for the order over all its attempts, the profile returned is that one, and what is granted goes to a profile that did not exist before; without faults it is the scan of the names. |
| Provisioning.TryCandidate | packages/subscription_delivery/subscription_delivery/delivery.py:461-583 | One turn: adopt a marked profile, skip a foreign one, create under a free name; a lost reply or a failed create leaves a state the next turn or attempt recognises. |
| Provisioning.TryCreate | packages/subscription_delivery/subscription_delivery/delivery.py:486-583 | The create request under a name that was free, with a failed call or a lost reply, leaves the same guarantees as a whole turn. |
| Provisioning.AfterCreate | packages/subscription_delivery/subscription_delivery/delivery.py:510-583 | Reading the name back decides between ours, foreign and failed without losing a profile that was created. |
| Provisioning.RetryAdoptsIff | packages/subscription_delivery/subscription_delivery/delivery.py:461-485 | A retry adopts the profile of an earlier attempt exactly when its name is still among the candidates and every candidate below it is still taken; it never adopts another. |
| Provisioning.FreeNameMeansUntouched | packages/subscription_delivery/subscription_delivery/delivery.py:481-486 | In a recoverable state a free candidate means that nothing was delivered yet. |
| Provisioning.CreationIsRecoverable | packages/subscription_delivery/subscription_delivery/delivery.py:486-509 | Creating under the first free name grants once, to a profile every later scan recognises. |
| Provisioning.SkippingKeepsRecoverable | packages/subscription_delivery/subscription_delivery/delivery.py:481-485 | Passing a name held by an unmarked profile loses nothing. |
| Panel.Panel.Create | packages/remnawave_client/remnawave_client/client.py:377-448 | A create request that raises may still have taken effect; if it did, the name was free and the profile has that name, description and absolute expiry; otherwise nothing changed. |
| Panel.Panel.Update | packages/remnawave_client/remnawave_client/client.py:450-545 | An update request that raises may still have taken effect; if it did, only that profile changed, to an expiry computed when the request was built; otherwise nothing changed. |
| Panel.WritingAgainChangesNothing | packages/remnawave_client/remnawave_client/client.py:477-480 | Writing the same absolute request again changes no profile. |
| Panel.Panel.ReadById | packages/remnawave_client/remnawave_client/client.py:327-346 | A strict read returns the profile, or none if it does not exist, or raises. |
| Panel.Panel.ReadByUsername | packages/remnawave_client/remnawave_client/client.py:287-301 | A strict read by name returns the one profile with it, none if the name is free, or raises. |
| Markers.ProvisioningCarries | packages/subscription_delivery/subscription_delivery/delivery.py:90-99 | Whatever the metadata, the description of a created profile contains the provisioning marker of its order. |
| Markers.DeliveryCarries | packages/subscription_delivery/subscription_delivery/delivery.py:102-107 | Whatever the text, the description of a renewed profile contains the delivery marker of its order. |
| Markers.ContainsIff | packages/subscription_delivery/subscription_delivery/delivery.py:649-653 | A marker is in a description exactly when the description is the marker with something before and behind it. |
| Markers.RenewalErasesOtherMarkers | packages/subscription_delivery/subscription_delivery/delivery.py:102-107 | A renewal for one order erases every marker of another order with an equally long id. |
| Markers.RenewalPassesForIff | packages/subscription_delivery/subscription_delivery/delivery.py:102-107 | A renewal for one order is taken for the delivery of another if and only if the other's id is a prefix of its own; it is never taken for its provisioning. |
| Markers.MarkersAtStart | packages/subscription_delivery/subscription_delivery/delivery.py:102-107 | A renewal's description contains a delivery marker exactly when it starts with it, and no provisioning marker. |
| Usernames.BuildFits | packages/subscription_delivery/subscription_delivery/delivery.py:67-87 | Every name has between 3 and 36 characters and is the cut base followed by the suffix: the fallback for short names is never taken. |
| Usernames.BuildReads | packages/subscription_delivery/subscription_delivery/delivery.py:67-87 | A name reads: as much of the name part as 36 characters leave room for, the account number, and the ordinal unless it is zero. |
| Usernames.BaseIs | packages/subscription_delivery/subscription_delivery/delivery.py:67-87 | The name part is the sanitized Telegram name, or the word user where nothing is left of it. |
| Usernames.SanitizedChar | packages/subscription_delivery/subscription_delivery/delivery.py:67-87 | Capitals are lowered; letters, digits, underscores and hyphens stay; every other character is dropped. |
| Usernames.SanitizedParts | packages/subscription_delivery/subscription_delivery/delivery.py:67-87 | Sanitizing goes character by character, and leading at-signs are dropped like any other foreign one. |
| Usernames.DecimalSpells | packages/subscription_delivery/subscription_delivery/delivery.py:67-87 | A numeral spells its number, without a leading zero. |
| Usernames.BuildAccepts | packages/subscription_delivery/subscription_delivery/delivery.py:75-84 | 64-bit account ids and 32-bit ordinals are always accepted. |
| Usernames.SameNameIff | packages/subscription_delivery/subscription_delivery/delivery.py:67-87 | For one account and display name two ordinals share a name exactly when one is 0, the other is the account id, and the base spells the id where the longer suffix cuts it. |
| Usernames.CollisionExample | packages/subscription_delivery/subscription_delivery/delivery.py:75-87 | The clash exists: account 7 with a 34-character name ending in _7. |
| Usernames.SanitizeKeeps | packages/subscription_delivery/subscription_delivery/delivery.py:73-75 | Names of allowed lower-case characters pass the sanitizer unchanged. |
| Renewal.ExtensionDrift | packages/remnawave_client/remnawave_client/operations.py:90-98 | Extending a live profile never shortens it and misses the promised expiry by at most half a day, plus the time between reading and writing. |
| Renewal.DriftBoundIff | packages/remnawave_client/remnawave_client/operations.py:31-36 | The half-day bound holds if and only if the total is at most 10000 days; above that one day is left. |
| Renewal.LongExtensionCollapses | packages/remnawave_client/remnawave_client/operations.py:31-36 | Thirty days added to 9990 leave a single day. |
| Renewal.ExpiredStartsAfresh | packages/subscription_delivery/subscription_delivery/delivery.py:135-143 | An expired profile is extended from the moment of writing. |
| Renewal.RepeatedDrift | packages/remnawave_client/remnawave_client/client.py:477-480 | n extensions of a live profile drift by at most n half-days, plus a second of truncation for each. |
| Renewal.RecomputedRetryGrantsTwice | packages/subscription_delivery/subscription_delivery/delivery.py:661-674 | A retry that recomputes the remaining days after the first write grants the days twice: what the delivery marker prevents. |
| Renewal.RoundIsNearest | packages/subscription_delivery/subscription_delivery/delivery.py:143 | Rounding to whole days errs by at most half a day. |
| Ownership.AttachKeeps | packages/common_db/common_db/repo/subscriptions.py:68-127 | Attaching is refused exactly for a missing account or a profile linked elsewhere; otherwise it keeps the ownership invariant, adds exactly that link, makes it primary when asked or first, and touches nobody else. |
| Ownership.AttachedRows | packages/common_db/common_db/repo/subscriptions.py:92-127 | The effect of an attach on each row. |
| Ownership.SetPrimaryKeeps | packages/common_db/common_db/repo/subscriptions.py:130-155 | Choosing a primary always succeeds, keeps the invariant and all ownership, and projects the chosen profile; a foreign profile changes nothing. |
| Ownership.DetachKeeps | packages/common_db/common_db/repo/subscriptions.py:176-201 | Detaching is refused exactly for the primary of an account with further links; otherwise that link alone disappears and the invariant holds. |
| Ownership.FinalizeKeeps | packages/common_db/common_db/repo/subscription_onboarding.py:71-115 | Verifying an e-mail keeps the invariant, attaches exactly when a live pending profile is free and the account has no link, and keeps the pending row only while OAuth is awaited. |
| Ownership.AttachInitialKeeps | packages/common_db/common_db/repo/subscription_onboarding.py:118-148 | The first attach keeps the invariant, clears the pending row, links the profile exactly when the account has no link, and is refused exactly for a missing account or a profile linked elsewhere. |
| Ownership.DeliveryAttachKeeps | packages/subscription_delivery/subscription_delivery/delivery.py:294-342 | A delivery attaches exactly the profiles nobody else owns, keeps the invariant, adds that link alone and leaves every other account untouched. |
| Ownership.InvMeaning | packages/common_db/common_db/repo/subscriptions.py:46-66 | The invariant in the schema's words: one owner a profile, exactly one primary for an account with links, the projection names it, and no two accounts project one profile. |
| Ownership.LocalChangeKeeps | packages/common_db/common_db/repo/subscriptions.py:68-201 | A change to one account that leaves it consistent keeps the invariant of all. |
| AccountStore.AccountStore.Attach | packages/common_db/common_db/repo/subscriptions.py:68-127 | In place, the tables become what Attached says, or stay as they were and the error is raised. |
| AccountStore.AccountStore.PutLink | packages/common_db/common_db/repo/subscriptions.py:86-120 | The link is inserted or updated, after the account's other links lost their flag if it is promoted. |
| AccountStore.AccountStore.SetPrimary | packages/common_db/common_db/repo/subscriptions.py:130-155 | In place, the tables become what PrimarySet says and the link is returned, or none. |
| AccountStore.AccountStore.Detach | packages/common_db/common_db/repo/subscriptions.py:176-201 | In place, the tables become what Detached says, or stay as they were and the error is raised. |
| AccountStore.AccountStore.GetActive | packages/common_db/common_db/repo/subscription_onboarding.py:49-59 | An expired pending row is deleted and not returned. |
| AccountStore.AccountStore.FinalizeEmailVerification | packages/common_db/common_db/repo/subscription_onboarding.py:71-115 | In place, the tables become what Finalized says and its status is returned. |
| AccountStore.AccountStore.AttachInitial | packages/common_db/common_db/repo/subscription_onboarding.py:118-148 | In place, the tables become what InitialAttached says and its status is returned. |
| OwnershipRuns.NextKeeps | packages/common_db/common_db/repo/subscriptions.py:68-201 | Every sign-up, pending onboarding, attach, detach, primary change, onboarding, delivery attach and unstranded merge keeps the ownership invariant. |
| OwnershipRuns.EveryReachableStateIsConsistent | packages/common_db/common_db/repo/subscriptions.py:68-201 | So does every run of them. |
| OwnershipRuns.StrandedMergeBreaks | packages/account_linking/account_linking/merge.py:279-280 | A merge of two accounts without links that chooses a third account's profile leaves it projected by one account and linked to another. |
| OwnershipRuns.PendingCollisionAborts | packages/account_linking/account_linking/merge.py:284-288 | A merge of two accounts that both have a pending row raises and changes nothing. |
| Merge.DecideMeaning | packages/account_linking/account_linking/merge.py:122-158 | Whoever is found alone is chosen, a paid profile over a free one, and between two of a kind the Telegram side's unless it is not identified; the codes say which were found and whether one was paid. |
| Merge.MergeConserves | packages/account_linking/account_linking/merge.py:193-296 | The survivor's links are the union of both, its balance the sum, every owned row and android_user_id reference of the loser is its own, nothing refers to the loser, and third accounts and their references are as they were. |
| Merge.MergePrimary | packages/account_linking/account_linking/merge.py:251-259 | The primary is the survivor's, else the loser's. |
| Merge.MergedRows | packages/account_linking/account_linking/merge.py:193-296 | What is left of two accounts: every text, the address and the panel uuid are the survivor's or, where it has none, the loser's; VIP level and onboarding version are the higher ones; the pending row is the one there was; all links keep their rows and are the survivor's, one of them primary. |
| Merge.WholeMergeRows | packages/account_linking/account_linking/merge.py:306-386 | The same of a whole merge with its back-fills; no other account changes but in its projection. |
| Merge.ApplyKeepsIff | packages/account_linking/account_linking/merge.py:260-280 | Applying a merge keeps the ownership invariant if and only if some link survives or nothing was chosen. |
| Merge.BackfilledLinks | packages/account_linking/account_linking/merge.py:306-386 | After both sides are back-filled there is no link exactly when neither side had one and the panel named only profiles of third accounts. |
| Merge.MergeKeepsIff | packages/account_linking/account_linking/merge.py:306-483 | A whole merge keeps the invariant if and only if it is not stranded: no links on either side, a profile chosen, and only third accounts' profiles found. |
| Merge.OwnProfilesNeverStrand | packages/account_linking/account_linking/merge.py:306-483 | Look-ups that name no third account's profile never strand a merge. |
| Merge.Oldest | packages/account_linking/account_linking/merge.py:259 | The link with the smallest id. |
| Merge.PickPrimary | packages/account_linking/account_linking/merge.py:240-259 | The survivor's primary, else the loser's, else the oldest link, else none. |
| Merge.MoveLinks | packages/account_linking/account_linking/merge.py:260-278 | The three updates leave every link of both with the survivor and exactly the chosen one primary. |
| Merge.Reparent | packages/account_linking/account_linking/merge.py:282-293 | Every owned row that named the loser names the survivor; refused exactly when both have a pending row. |
| Merge.MergeColumns | packages/account_linking/account_linking/merge.py:213-238 | The survivor's row in place, column by column as `Merge.MergedRows` reads it. |
| Merge.ApplyMergeDb | packages/account_linking/account_linking/merge.py:193-296 | The steps in the order the code takes them give the specified tables, or an error and the tables as they were. |
| Merge.BackfillSide | packages/account_linking/account_linking/merge.py:336-351 | Back-filling one side attaches its panel profile unless it is linked elsewhere, which is ignored; only an integrity error stops the merge. |
| Merge.MergeInto | packages/account_linking/account_linking/merge.py:306-483 | Back-filling both sides and merging, in one transaction. |
| Merge.MergeAndroidAndTg | packages/account_linking/account_linking/merge.py:306-386 | The Telegram account survives with the decided profile; a missing account is refused without a change. |
| Merge.MergeTgIntoEmail | packages/account_linking/account_linking/merge.py:389-483 | The e-mail account survives with its own profile, else the other's; a missing or equal account is refused without a change. |
| PanelIndex.Build | scripts/backfill_remnawave_ids.py:95-165 | Each mapping holds exactly the keys that name one panel user, each duplicate set exactly those that name several, and every resolved id is a panel id. |
| PanelIndex.Collect | scripts/backfill_remnawave_ids.py:95-118 | The first pass gathers exactly the ids of the items and, under each key, the ids that carry it. |
| PanelIndex.Split | scripts/backfill_remnawave_ids.py:133-146 | The unique and the ambiguous keys of one column. |
| PanelIndex.IndexIsGrounded | scripts/backfill_remnawave_ids.py:148-165 | Every id an index resolves to exists on the panel. |
| Backfill.StepConverges | scripts/backfill_remnawave_ids.py:504-551 | From a clean audit a planned step succeeds, leaves the audit clean, settles its own account and changes no other account's plan. |
| Backfill.SyncConverges | scripts/backfill_remnawave_ids.py:536-551 | Writing a confirmed repair keeps the audit clean and everything else settled. |
| Backfill.StepSucceeds | scripts/backfill_remnawave_ids.py:504-551 | A planned step cannot raise. |
| Backfill.StepKeepsOthers | scripts/backfill_remnawave_ids.py:231-501 | A step changes neither what is planned for other accounts nor whether anything blocks them. |
| Backfill.StepSettlesAccount | scripts/backfill_remnawave_ids.py:231-501 | After its step nothing more is planned for an account. |
| Backfill.StepKeepsClean | scripts/backfill_remnawave_ids.py:231-501 | A step leaves nothing that blocks. |
| Backfill.ReadyMeaning | scripts/backfill_remnawave_ids.py:584-593 | Ready means that every projection is its account's one primary link; the ownership invariant then fails only for links of accounts without a projection. |
| Backfill.ReadyBreaksInvariant | scripts/backfill_remnawave_ids.py:584-593 | A ready graph that breaks the ownership invariant: one account with a primary link and no projection. |
| Backfill.PlannedIsFree | scripts/backfill_remnawave_ids.py:331-371 | In a clean audit the profile of a planned action is linked to and projected by nobody else. |
| Backfill.OtherWantsAnother | scripts/backfill_remnawave_ids.py:331-376 | In a clean audit no two accounts have or want the same profile. |
| Backfill.PlanShrinks | scripts/backfill_remnawave_ids.py:504-551 | After the first action the plan is the rest of the plan. |
| BackfillRun.ScanAccount | scripts/backfill_remnawave_ids.py:287-371 | One turn of the audit loop: no blocker is reported exactly when the account is clear and its profile is not planned for an earlier one; then exactly its step is planned. |
| BackfillRun.ScanAccounts | scripts/backfill_remnawave_ids.py:287-371 | Nothing is reported exactly when no account is blocked and no two want one profile; then the plan is every account's step, in order. |
| BackfillRun.ScanRepairs | scripts/backfill_remnawave_ids.py:389-415 | None is reported invalid exactly when every requested repair names its account's primary, and then exactly the outstanding ones are planned. |
| BackfillRun.SingleOwnersIff | scripts/backfill_remnawave_ids.py:268-276 | No profile has several owners exactly when every link and projection is free of other accounts. |
| BackfillRun.Audit | scripts/backfill_remnawave_ids.py:231-501 | The report is without blockers exactly when the graph is clean, and then the actions are the planned steps in account order followed by the repairs. |
| BackfillRun.OwnersVerdict | scripts/backfill_remnawave_ids.py:287-376 | No scan blocker and no profile with several owners means that every account is clear and no two want one profile, and conversely. |
| BackfillRun.MismatchVerdict | scripts/backfill_remnawave_ids.py:377-415 | Once the repairs are valid, no mismatch is left exactly when every one is confirmed. |
| BackfillRun.PanelVerdict | scripts/backfill_remnawave_ids.py:416-418 | No id is missing exactly when every owned profile is on the panel. |
| BackfillRun.AuditVerdict | scripts/backfill_remnawave_ids.py:416-501 | The parts of the report together say clean or not. |
| BackfillRun.ApplyAction | scripts/backfill_remnawave_ids.py:504-551 | In place, one action does what its specification says, or raises and changes nothing. |
| BackfillRun.Apply | scripts/backfill_remnawave_ids.py:504-551 | From a clean audit applying its actions never raises and ends ready. |
| BackfillRun.RunBackfill | scripts/backfill_remnawave_ids.py:554-593 | The exit code is 0 exactly for a clean audit; applying then ends ready, with every account given exactly what it was owed before; a blocked or dry run, and a run on a ready graph, changes nothing. |
| BackfillRun.RunScript | scripts/backfill_remnawave_ids.py:637-673 | The script from the panel's users on: after a run that was applied every account without a projection is linked to exactly the user that carries its uuid as panel uuid, failing that as protocol uuid, failing both its e-mail address, and failing all to nothing new; an account of which this cannot be told, or that has paid and is not found, blocks the run; a panel without uuids ends it with code 3. |
| BackfillResults.DueIsFilled | scripts/backfill_remnawave_ids.py:504-551 | What a clean graph is brought to, account by account: links, projection and nothing else. |
| BackfillResults.ResolveFinds | scripts/backfill_remnawave_ids.py:299-336 | The user an account resolves to is the one that carries its identifiers, in that order. |
| BackfillResults.ResolveBlocksIff | scripts/backfill_remnawave_ids.py:299-341 | An account is reported as ambiguous or unresolved exactly when it cannot be told who it is. |
| BackfillResults.ResolveKind | scripts/backfill_remnawave_ids.py:313-336 | The kind of a step says by which identifier the account was found. |
| BackfillResults.StepKeepsDue | scripts/backfill_remnawave_ids.py:504-551 | A step leaves what everybody is owed unchanged: what it gives it takes off the plan. |
| BackfillResults.SyncKeepsDue | scripts/backfill_remnawave_ids.py:527-531 | So does the writing of a confirmed repair. |
| BackfillRun.ReadyPlansNothing | scripts/backfill_remnawave_ids.py:584-593 | The plan is empty exactly when no account has a planned step and every repair is written. |
| WalletRuns.EveryBalanceIsItsLedger | packages/common_db/common_db/repo/balance.py:47-102 | Over any run of credits, debits, purchases, redemptions, rewards, new codes, sign-ups and merges, whichever of several accounts with one Telegram id a look-up answers: every balance stays non-negative and equal to the sum of its account's ledger; every code's counter equals what the ledger paid under its name; and no code is redeemed twice, nor two referral codes, by one person, nor one's own. |
| WalletRuns.HistoryIsRunningBalance | packages/common_db/common_db/repo/balance.py:62-71 | For an account that never absorbs another every balance_after is the running sum of its rows. |
| WalletRuns.MergedRunsIff | packages/account_linking/account_linking/merge.py:284-288 | The merged history of two running ones is a running balance if and only if each account stood at zero whenever the other moved. |
| WalletRuns.MergedHistoryIsNotRunning | packages/account_linking/account_linking/merge.py:284-288 | An example in which it is not. |
| WalletRuns.RewardsTelescope | packages/common_db/common_db/repo/referral_rewards.py:49-66 | With one rate and cap and no negative days, the points of every code are min(cap, days // 30 * rate) however its days were split, and equal the ledger rows that name the code. |
| WalletRuns.ClosedFormIff | packages/common_db/common_db/repo/referral_rewards.py:49-66 | After a purchase a code meets the closed form of the settings in force if and only if it had not been paid more than that before, under whatever settings. |
| WalletRuns.LoweredRateLeavesMore | packages/common_db/common_db/repo/referral_rewards.py:49-66 | An example: 30 days at rate 10 earn 10 points; at rate 5 and after 29 more days the code still has 10, where the closed form says 5. |
| WalletRuns.RewardsOnlyGrow | packages/common_db/common_db/repo/referral_rewards.py:55-58 | Whatever the settings, no transaction takes points from a code, and none that adds points takes it past the cap in force. |
| WalletRuns.RewardsStayUnderTheCaps | packages/common_db/common_db/repo/referral_rewards.py:55-58 | Over a run with changing settings the points never fall and never pass the highest cap seen. |
| WalletRuns.NextKeeps | packages/common_db/common_db/repo/balance.py:47-102 | Every transaction keeps the wallet invariant. |
| Wallet.RewardStep | packages/common_db/common_db/repo/referral_rewards.py:40-66 | One purchase, under any settings: the code takes the days, its points rise to min(cap, days // 30 * rate) if that is more, the owner is credited the difference, and nothing else changes. |
| WalletAnswers.RewardedCounts | packages/common_db/common_db/repo/referral_rewards.py:29-88 | A purchase counts for the code of the buyer's last redemption, if it exists and its owner has an account, and for no other; the points rise to what the days have earned by now, under the cap. |
| WalletAnswers.OnlyTheLastCodeMoves | packages/common_db/common_db/repo/promos.py:92-101 | A code whose counters a purchase changes is the one its buyer redeemed last. |
| WalletAnswers.CanRedeemIff | packages/common_db/common_db/repo/promos.py:152-178 | A code is redeemable unless it is unknown, one's own or used before, and a referral code only by somebody never referred who never ordered; the first reason that applies is given. |
| WalletAnswers.RedeemsIff | packages/common_db/common_db/repo/promos.py:181-233 | A redemption succeeds exactly for a redeemable code and a person with an account; log, own code, grant and balance follow. |
| WalletAnswers.MergeMovesRows | packages/account_linking/account_linking/merge.py:235-288 | Ledger rows and orders keep places and contents, and the loser's are the survivor's; the balances add up. |
| WalletAnswers.MergeKeepsOrderHistory | packages/account_linking/account_linking/merge.py:284-288 | Who has ordered with either account has ordered with the merged one. |
| Wallet.RewardedKeeps | packages/common_db/common_db/repo/referral_rewards.py:29-68 | A reward keeps the wallet invariant. |
| Wallet.RedeemedKeeps | packages/common_db/common_db/repo/promos.py:181-215 | A redemption keeps balances, ledger and the redemption rules. |
| Wallet.BoughtKeeps | packages/common_db/common_db/repo/credits_pay.py:49-97 | A purchase with points keeps the wallet invariant. |
| Wallet.NewCodeKeeps | packages/common_db/common_db/repo/promos.py:66-75 | A new code starts with an empty account of its own. |
| Wallet.MergedKeeps | packages/account_linking/account_linking/merge.py:235-237 | A merge keeps the wallet invariant. |
| Wallet.ReparentedTotals | packages/account_linking/account_linking/merge.py:284-288 | Moving the loser's rows adds exactly its sum to the survivor's and leaves every other sum, and every sum by reference, as it was. |
| WalletStore.WalletStore.GetBalance | packages/common_db/common_db/repo/balance.py:42-44 | With balanced tables the answer, 0 for a missing account, is the sum of the account's ledger. |
| WalletStore.WalletStore.Credit | packages/common_db/common_db/repo/balance.py:47-73 | In place: what Credited says, with the new balance, or an error and nothing changed. |
| WalletStore.WalletStore.DebitIfSufficient | packages/common_db/common_db/repo/balance.py:76-102 | In place: what Debited says; an insufficient balance or missing account changes nothing. |
| WalletStore.WalletStore.PurchaseWithCredits | packages/common_db/common_db/repo/credits_pay.py:32-103 | In place: an order is placed exactly when the points were debited. |
| WalletStore.WalletStore.FindByTg | packages/common_db/common_db/repo/users.py:46-51 | Some account with the Telegram id, which several may share; none only if no account has it. |
| WalletStore.WalletStore.ResolveRedeemer | packages/common_db/common_db/repo/promos.py:140-149 | Some account with the Telegram id; if there is none, for a negative id the row with that number. |
| WalletStore.WalletStore.GetOrCreateReferralCode | packages/common_db/common_db/repo/promos.py:66-75 | The person's code, made with zero counters if there was none. |
| WalletStore.WalletStore.RedeemPromo | packages/common_db/common_db/repo/promos.py:181-233 | In place: a redemption succeeds exactly when the code is redeemable and the person has an account, and is then logged and credited with the code's own grant or the default one; otherwise the reason is given and nothing changed. |
| WalletStore.WalletStore.RecordPurchase | packages/common_db/common_db/repo/referral_rewards.py:29-88 | In place: the code the buyer redeemed last takes the days if it exists and its owner has an account, no other code changes, and the owner is credited what the days have earned beyond what was paid; information is returned exactly when points were paid. |
| WalletStore.WalletStore.PayReward | packages/common_db/common_db/repo/referral_rewards.py:55-88 | The owner is credited what is due, under the code's reference, or nothing changes. |
| WalletStore.WalletStore.MergeWallets | packages/account_linking/account_linking/merge.py:235-288 | In place: the wallet's share of a merge. |
| Giveaways.WholeRun | packages/common_db/common_db/repo/giveaways.py:180-631 | Over any run of calls that do not overlap: every ticket holder is a participant, each participant has exactly one join ticket, no grant repeats, winners are valid; once out of draft the rules and the number of places never change, and once closed or drawn neither do tickets and participants. |
| Giveaways.NextKeepsInv | packages/common_db/common_db/repo/giveaways.py:180-631 | Every operation keeps the giveaway invariant. |
| Giveaways.TicketsPerParticipant | packages/common_db/common_db/repo/giveaways.py:320-372 | A participant of a static giveaway holds exactly one ticket, of a dynamic one at least one. |
| Giveaways.GrantKeeps | packages/common_db/common_db/repo/giveaways.py:277-309 | A granted ticket keeps the invariant. |
| Giveaways.DrawKeeps | packages/common_db/common_db/repo/giveaways.py:559-608 | A stored draw keeps the invariant. |
| Giveaways.ReportsAgree | packages/common_db/common_db/repo/giveaways.py:634-659 | Until a redraw every later report of the winners, numbers included, equals the one made at the draw. |
| Giveaways.RedrawIsDisjoint | packages/common_db/common_db/repo/giveaways.py:611-631 | A successful redraw fills every place, with nobody who won before. |
| Giveaways.NumbersAreDistinct | packages/common_db/common_db/repo/giveaways.py:508-524 | Tickets are numbered from one in inventory order, no two alike. |
| Giveaways.NewInv | packages/common_db/common_db/repo/giveaways.py:153-177 | A new giveaway satisfies the invariant whatever configuration is given. |
| GiveawayStore.GiveawayStore.constructor | packages/common_db/common_db/repo/giveaways.py:153-177 | A new giveaway is a draft with the normalised settings. |
| GiveawayEntry.CreatedAsAsked | packages/common_db/common_db/repo/giveaways.py:67-177 | A new giveaway stores the rules as asked for: no ticket sources if static, the kinds of invitation asked for if dynamic, at least one place. |
| GiveawayEntry.UpdatedAsAsked | packages/common_db/common_db/repo/giveaways.py:180-219 | An update is accepted for a draft, and for an active giveaway if it moves the window only; each bound is kept, cleared or set as asked. |
| GiveawayStore.GiveawayStore.UpdateGiveaway | packages/common_db/common_db/repo/giveaways.py:180-219 | Refused exactly when the rules say so; then nothing changes. |
| GiveawayStore.GiveawayStore.ActivateGiveaway | packages/common_db/common_db/repo/giveaways.py:222-227 | Only a draft is activated. |
| GiveawayStore.GiveawayStore.CloseGiveaway | packages/common_db/common_db/repo/giveaways.py:230-235 | Only an active giveaway is closed. |
| GiveawayStore.GiveawayStore.GrantTicket | packages/common_db/common_db/repo/giveaways.py:277-309 | A ticket is added exactly when the same grant was not made before. |
| GiveawayStore.GiveawayStore.JoinParticipant | packages/common_db/common_db/repo/giveaways.py:320-372 | A join is answered joined exactly for a positive id, an active giveaway, a time within its bounds, a met subscription rule and somebody who takes no part yet; it then adds the participant and exactly one join ticket stamped now, and changes nothing otherwise; the count is that of the participant's tickets. |
| GiveawayEntry.JoinsIff | packages/common_db/common_db/repo/giveaways.py:320-372 | Who may join is let in and nobody else; the first reason against it is given. |
| GiveawayEntry.InvitesIff | packages/common_db/common_db/repo/giveaways.py:375-405 | A ticket is granted exactly to a participant of an open dynamic giveaway that counts this source, once for each invitee. |
| GiveawayEntry.CountIsRows | packages/common_db/common_db/repo/giveaways.py:261-275 | The count of a participant is the number of rows in their name. |
| GiveawayEntry.FirstTicketIsEarliest | packages/common_db/common_db/repo/giveaways.py:508-524 | The first ticket of a winner is the one created first of their own. |
| Giveaways.JoinedHoldsTickets | packages/common_db/common_db/repo/giveaways.py:320-372 | Whoever has joined, just now or before, holds at least one ticket, and exactly one of a static giveaway. |
| GiveawayStore.GiveawayTable.TryGrantInviteeTicket | packages/common_db/common_db/repo/giveaways.py:375-405 | Of every giveaway of the table, exactly those get one ticket more that are open, dynamic and count this source, in which the referrer takes part and had no ticket for this invitee; the answer is their number. |
| GiveawayStore.GiveawayTable.Offer | packages/common_db/common_db/repo/giveaways.py:389-405 | One active giveaway is offered the grant: a ticket is added exactly when the rules allow it and it was not made before. |
| GiveawayStore.TicketInventory | packages/common_db/common_db/repo/giveaways.py:508-524 | Tickets by holder and by number are those of the ordered ticket list. |
| GiveawayStore.CollectEntries | packages/common_db/common_db/repo/giveaways.py:527-545 | One entry for every eligible holder, with its ticket count. |
| GiveawayStore.PickWinners | packages/common_db/common_db/repo/giveaways.py:527-589 | Winners are distinct eligible holders ranked 1..n with n = min(places, eligible), each with a ticket of its own; in most-tickets mode nobody left out has strictly more. |
| GiveawayStore.GiveawayStore.DrawWinners | packages/common_db/common_db/repo/giveaways.py:592-608 | Succeeds exactly for an active or closed giveaway, which is then drawn; the report is that of the stored winners. |
| GiveawayStore.GiveawayStore.RedrawWinners | packages/common_db/common_db/repo/giveaways.py:611-631 | Succeeds exactly for a drawn giveaway with enough other holders; the report is that of the new winners. |
| GiveawayStore.GiveawayStore.GetWinners | packages/common_db/common_db/repo/giveaways.py:634-659 | The report of the stored rows: the number of the winning ticket, or of the winner's first ticket where the row has none. |
| GiveawayRaces.LateJoinKeepsInv | packages/common_db/common_db/repo/giveaways.py:320-372 | A join that decided on an earlier state and commits after a draw still keeps the ticket invariant. |
| GiveawayRaces.LateJoinKeepsReportIff | packages/common_db/common_db/repo/giveaways.py:508-524 | Such a join adds its ticket to a drawn giveaway; the reported lines stay as they were if and only if it is stamped no earlier than every winning ticket. |
| GiveawayRaces.NumberIsRank | packages/common_db/common_db/repo/giveaways.py:508-524 | The number of a ticket is how many tickets come no later than it. |
| GiveawayRaces.LateInvitationKeepsInvIff | packages/common_db/common_db/repo/giveaways.py:375-405 | An invitation that decided on an earlier state keeps the ticket invariant if and only if the giveaway is still dynamic or nothing is granted. |
| GiveawayRaces.LateInvitationKeepsReportIff | packages/common_db/common_db/repo/giveaways.py:375-405 | It changes the report of a draw under the same condition as a late join. |
| GiveawayRaces.LateStatusKeepsInvIff | packages/common_db/common_db/repo/giveaways.py:222-235 | A close or an activation that read an earlier status keeps the invariant if and only if nothing was drawn meanwhile. |
| GiveawayRaces.ClosedDrawIsStuck | packages/common_db/common_db/repo/giveaways.py:592-613 | A draw with winners that a late close overwrote can be neither drawn nor redrawn: no call, in any run, changes the giveaway again. |
| GiveawayRaces.LateUpdateKeepsRulesIff | packages/common_db/common_db/repo/giveaways.py:180-219 | An update that was decided on a draft changes the current rules if and only if it sends rules that differ from those it read and from the current ones. |
| GiveawayRaces.LateUpdateKeepsInvIff | packages/common_db/common_db/repo/giveaways.py:180-219 | It keeps the invariant unless it makes a giveaway with invitation tickets static or leaves fewer places than there are winners. |
| GiveawayRaces.SerialJoin | packages/common_db/common_db/repo/giveaways.py:320-372 | Without an overlap it is the join of a run. |
| GiveawayRaces.SerialInvitation | packages/common_db/common_db/repo/giveaways.py:375-405 | Without an overlap it is the invitation of a run. |
| GiveawayRaces.SerialStatus | packages/common_db/common_db/repo/giveaways.py:222-235 | Without an overlap they are the close and the activation of a run. |
| GiveawayRaces.SerialUpdate | packages/common_db/common_db/repo/giveaways.py:180-219 | Without an overlap it is the update of a run. |
| Winners.WeightedRandomWinners | packages/common_db/common_db/repo/giveaways.py:471-484 | Whatever is drawn: distinct entries with tickets, as many as places or entries allow. |
| Winners.MostTicketsWinners | packages/common_db/common_db/repo/giveaways.py:487-505 | Distinct entries, as many as places or entries allow, by falling ticket counts; nobody left out has more tickets than a winner, and below the top ties go to the smaller participant id. |
| Winners.Sample | packages/common_db/common_db/repo/giveaways.py:493-496 | Any selection of that many different entries. |
| Winners.MaxCount | packages/common_db/common_db/repo/giveaways.py:490 | The largest count. |
| Winners.FillUp | packages/common_db/common_db/repo/giveaways.py:497-505 | The first of the sorted rest are added until the places are full. |
| Winners.TopAndRest | packages/common_db/common_db/repo/giveaways.py:497-505 | The top entries with the first of the sorted rest leave out nobody with more tickets. |
| Winners.PopKeepsPartition | packages/common_db/common_db/repo/giveaways.py:475-484 | Popping an entry never loses or repeats one. |
| MenuAgreement.TopDownAgreesWithBottomUp | packages/common_db/common_db/repo/webapp_menu.py:126-207 | On any parent graph, cyclic or dangling: a valid invoice is accepted from below if and only if the tree shows it below groups only. |
| MenuShown.ShownIff | packages/common_db/common_db/repo/webapp_menu.py:141-186 | For the shop and for the editor: a path is shown if and only if it goes down from a root through nodes not hidden and valid invoices, and can be continued so until it ends at a node that is no group. |
| MenuAgreement.EmittedBelowGroupsIsAccepted | packages/common_db/common_db/repo/webapp_menu.py:126-207 | Every node shown below groups only is accepted from below. |
| MenuAgreement.ShownOnce | packages/common_db/common_db/repo/webapp_menu.py:141-186 | No node is shown twice; siblings differ and come by order and then id, at every level. |
| MenuAgreement.EmittedIsChain | packages/common_db/common_db/repo/webapp_menu.py:141-186 | What is shown hangs at its own chain of parents, all active, all invoices valid. |
| MenuAgreement.ChainIsEmitted | packages/common_db/common_db/repo/webapp_menu.py:141-186 | Every chain of active groups that ends in a valid invoice is shown. |
| MenuAgreement.LeavesOfWalk | packages/common_db/common_db/repo/webapp_menu.py:160-181 | With groups and invoices only, every leaf is a valid invoice. |
| MenuAgreement.WalkIsDistinct | packages/common_db/common_db/repo/webapp_menu.py:141-186 | Siblings of the tree are different nodes, by order and then id. |
| MenuAgreement.GetActiveNode | packages/common_db/common_db/repo/webapp_menu.py:189-207 | Terminates on every table and accepts exactly the nodes at the end of an active chain of groups from a root. |
| MenuAgreement.GroupByParent | packages/common_db/common_db/repo/webapp_menu.py:132-136 | The rows of each parent, in table order. |
| MenuAgreement.Build | packages/common_db/common_db/repo/webapp_menu.py:126-186 | The code computes the specified tree. |
| MenuAgreement.WalkOver | packages/common_db/common_db/repo/webapp_menu.py:141-184 | The recursive walk computes the specified list for one parent. |
| Menu.CycleTestNeverFires | packages/common_db/common_db/repo/webapp_menu.py:144-146 | A child of the node the walk has reached is never among the nodes above it, however cyclic the table. |
| Menu.ChainDistinct | packages/common_db/common_db/repo/webapp_menu.py:141-146 | No node occurs twice on a path from a root. |
| Menu.ChainUnique | packages/common_db/common_db/repo/webapp_menu.py:189-207 | A node has at most one path from a root. |
| Menu.SiblingsAre | packages/common_db/common_db/repo/webapp_menu.py:132-140 | The children of a node are all of them, once each, in display order. |
| Menu.WalkEmits | packages/common_db/common_db/repo/webapp_menu.py:141-184 | What the walk shows below a node it has reached, path by path. |
| SingleFlight.SingleFlight | packages/remnawave_client/remnawave_client/api.py:64-100 | At any point of any interleaving at most one caller computes a key, and every finished call returned the outcome of a computation for its key that ran during the call or ended within the TTL before it. |
| SingleFlight.LeaderEndReleasesAll | packages/remnawave_client/remnawave_client/api.py:88-100 | When a leader ends, by value or exception, its key has no in-flight entry and all who waited resume with its outcome. |
| SingleFlight.WaitersProgress | packages/remnawave_client/remnawave_client/api.py:84-86 | Whoever waits has a leader that still computes, or can resume. |
| SingleFlight.RunKeepsInv | packages/remnawave_client/remnawave_client/api.py:64-100 | Every run from an empty cache keeps the invariant. |
| SingleFlight.NextKeepsInv | packages/remnawave_client/remnawave_client/api.py:64-100 | Every step between two awaits keeps the invariant of cache, futures and callers. |
| SingleFlight.TTLCache.constructor | packages/remnawave_client/remnawave_client/api.py:46-49 | An empty cache. |
| SingleFlight.TTLCache.Get | packages/remnawave_client/remnawave_client/api.py:51-59 | A live entry is returned, an expired one deleted. |
| SingleFlight.FoundUntilExpiry | packages/remnawave_client/remnawave_client/api.py:51-62 | A stored value is found up to a TTL later and no longer; other keys are found as before. |
| CacheAnswers.HitsWithinTtl | packages/remnawave_client/remnawave_client/api.py:64-100 | Over any run: a call for a key within a TTL of the last value computed for it returns that value at once and starts no computation. |
| CacheAnswers.MissComputes | packages/remnawave_client/remnawave_client/api.py:80-90 | A call for a key without a live value computes it, unless somebody does already, and then waits for that. |
| CacheAnswers.BeginsIff | packages/remnawave_client/remnawave_client/api.py:80-89 | A hit exactly for a live value; otherwise a wait exactly for a key being computed; only an expired entry is dropped. |
| CacheAnswers.EndKeeps | packages/remnawave_client/remnawave_client/api.py:90-100 | A value is kept for a TTL, a failure leaves the stored value alone, and the key is free again. |
| SingleFlight.HitIsJustified | packages/remnawave_client/remnawave_client/api.py:80-82 | A hit returns the outcome of a computation for its key that ended no longer than the TTL before. |
| SingleFlight.TTLCache.BeginGetOrCompute | packages/remnawave_client/remnawave_client/api.py:80-89 | Up to the first await: hit, wait for the future in flight, or lead with a new one. |
| SingleFlight.TTLCache.EndCompute | packages/remnawave_client/remnawave_client/api.py:90-100 | After the computation: store a value, resolve the future, clear the in-flight entry. |
| Blob.RoundTrip | packages/common_db/common_db/runtime_config/crypto.py:63-91 | For any hashes of 32 bytes, key, salt and nonce, what was encrypted is decrypted; encryption fails exactly for plain text longer than the block counter allows. |
| BlobAnswers.EncryptsAsSealed | packages/common_db/common_db/runtime_config/crypto.py:63-72 | The text is five fields: version, salt, nonce, the plain text masked bit by bit with the stream, and the keyed hash of those three. |
| BlobAnswers.TamperingNeedsCollision | packages/common_db/common_db/runtime_config/crypto.py:75-91 | Two different accepted texts with one hash and fields of the same lengths hash two different messages to the same value. |
| BlobAnswers.SealErrors | packages/common_db/common_db/runtime_config/crypto.py:75-91 | A text of the right form is refused exactly for a hash that is not that of its fields, for its length, for masked text that is no JSON, or for JSON that is no object, in that order. |
| BlobAnswers.FormErrors | packages/common_db/common_db/runtime_config/crypto.py:75-81 | A text without five fields or of another version is refused as such, and otherwise for its first field that is not encoded right. |
| BlobAnswers.StreamBytes | packages/common_db/common_db/runtime_config/crypto.py:49-60 | Each byte of the stream is that of the keyed hash of the nonce and the four-byte number of its block. |
| BlobAnswers.XorBit | packages/common_db/common_db/runtime_config/crypto.py:70-87 | A masked bit is set exactly when text and stream differ there. |
| Blob.AcceptsExactlySealed | packages/common_db/common_db/runtime_config/crypto.py:75-91 | A non-empty blob decrypts to a payload if and only if encryption under this key, with some salt and nonce, writes it for a text of that payload. |
| Blob.AcceptedTextIsUnique | packages/common_db/common_db/runtime_config/crypto.py:40-46 | Two accepted blobs with the same salt, nonce and ciphertext are the same text. |
| Blob.Keystream | packages/common_db/common_db/runtime_config/crypto.py:49-60 | The loop yields the stream whose byte i is byte i % 32 of block i / 32, or fails when the counter overflows. |
| Blob.EncryptJson | packages/common_db/common_db/runtime_config/crypto.py:63-72 | The code computes the specified blob. |
| Blob.DecryptJson | packages/common_db/common_db/runtime_config/crypto.py:75-91 | The code computes the specified result or error. |
| Blob.XorAllTwice | packages/common_db/common_db/runtime_config/crypto.py:70-71 | Applying the stream twice gives the text back. |
| Blob.XorTwice | packages/common_db/common_db/runtime_config/crypto.py:70-71 | Exclusive or, bit by bit, undoes itself. |
| Blob.SplitOfJoin | packages/common_db/common_db/runtime_config/crypto.py:78 | Splitting at the separator gives back parts that do not contain it. |
| Blob.JoinOfSplit | packages/common_db/common_db/runtime_config/crypto.py:78 | Joining the parts of a text gives the text back. |
| Blob.PartsOfText | packages/common_db/common_db/runtime_config/crypto.py:72-81 | The parts of a blob are the parts it was put together from. |
| Blob.TextOfParts | packages/common_db/common_db/runtime_config/crypto.py:40-46 | Only one text has given parts. |
| Base64.DecodesExactlyTheImage | packages/common_db/common_db/runtime_config/crypto.py:35-46 | The decoder accepts exactly the texts the encoder writes, which are exactly those of possible length, URL-safe symbols and zero bits after the last byte (sections 3.5 and 5 of RFC 4648). |
| Base64.DecodesWhatItEncodes | packages/common_db/common_db/runtime_config/crypto.py:31-46 | Whatever was encoded is decoded. |
| Base64.DecodingIsInjective | packages/common_db/common_db/runtime_config/crypto.py:40-46 | No two texts decode to the same bytes. |
| Base64.EncodedShape | packages/common_db/common_db/runtime_config/crypto.py:31-32 | Encoded text has only URL-safe symbols, no padding, and a possible length. |
| Base64.GroupsSpell | packages/common_db/common_db/runtime_config/crypto.py:31-32 | Read as binary numbers, a group of symbols is its bytes, filled up with zeros. |
| Base64.SymbolCodes | packages/common_db/common_db/runtime_config/crypto.py:31-32 | The symbols are those of table 2 of RFC 4648. |
| Latency.MetricAccumulator.Add | packages/common_db/common_db/api_health.py:102-109 | The counters are always those of the samples so far: count, sum, maximum, bytes and histogram. |
| Latency.MetricAccumulator.constructor | packages/common_db/common_db/api_health.py:92-100 | An empty accumulator. |
| Latency.FindBucket | packages/common_db/common_db/api_health.py:108 | The first bound that is not below the duration, else the unbounded bucket. |
| Latency.PercentileMs | packages/common_db/common_db/repo/api_health.py:34-45 | The scan over the buckets computes Percentile, fall-through included. |
| Latency.PercentileRefinesQuantile | packages/common_db/common_db/repo/api_health.py:34-45 | The percentile of recorded samples is the bucket bound of their exact quantile, read as 30000 in the unbounded bucket. |
| Latency.PercentileReads | packages/common_db/common_db/repo/api_health.py:34-45 | In milliseconds: the exact quantile rounded up to the next of the eleven bounds, and 30000 beyond the last. |
| Latency.QuantileExists | packages/common_db/common_db/repo/api_health.py:34-45 | Every fraction up to one has an exact quantile. |
| Latency.PercentileIsLeastBound | packages/common_db/common_db/repo/api_health.py:34-45 | It is the least bound that covers the requested share of the samples. |
| Latency.PercentileGrows | packages/common_db/common_db/repo/api_health.py:34-45 | A larger fraction, up to one, never reads a smaller latency. |
| Latency.ZeroIff | packages/common_db/common_db/repo/api_health.py:36-45 | A histogram with counts reads zero exactly when more than all of them is asked for. |
| Latency.ReachesIff | packages/common_db/common_db/repo/api_health.py:41-44 | The scan stops in a bucket exactly when the known keys hold enough counts. |
| Latency.MergedReadings | packages/common_db/common_db/repo/api_health.py:26-31 | For fractions up to one, any number of merged non-empty histograms reads between the least and the greatest reading of its parts. |
| Latency.MergedBetween | packages/common_db/common_db/repo/api_health.py:26-31 | Two merged histograms read between their own readings. |
| Latency.MergeHistograms | packages/common_db/common_db/repo/api_health.py:26-31 | The result counts, bucket by bucket, what all parts count. |
| Latency.AddCounts | packages/common_db/common_db/repo/api_health.py:29-30 | The inner loop adds one histogram. |
| Latency.CumulativeIsCount | packages/common_db/common_db/api_health.py:108-109 | Cumulative bucket counts are exact counts of samples at the bounds. |
| CompactionStore.ApiMetrics.CompactMinutes | packages/common_db/common_db/repo/api_health.py:98-130 | One tick, for the cutoff it is given: the oldest old rows, at most 20000, leave the minutes and are added to their hours; for every hour and series all totals, the maximum and the histogram stay what they were. |
| Compaction.TicksConserve | packages/common_db/common_db/repo/api_health.py:98-130 | So do any number of ticks, at any times and however the limit cuts the batches. |
| Compaction.TickConserves | packages/common_db/common_db/repo/api_health.py:107-130 | Minute and hour totals together are unchanged by a tick. |
| Compaction.TickDrains | packages/common_db/common_db/repo/api_health.py:98-103 | A tick takes 20000 off the backlog, or all of it, and touches no row at or after the cutoff. |
| Compaction.SameHourIff | packages/common_db/common_db/repo/api_health.py:105-107 | Two minute rows go to one hour row exactly when they agree in date, hour, service, verb, route and status. |
| Compaction.EarlierIff | packages/common_db/common_db/repo/api_health.py:101-103 | Time stamps compare as texts do: by the first character in which they differ. |
| Compaction.TakenTogether | packages/common_db/common_db/repo/api_health.py:117-124 | Counts, sums and histograms add up, and the longest duration is the longer one. |
| Compaction.TotalOfParts | packages/common_db/common_db/repo/api_health.py:104-124 | Totals of two parts of the table add up, in any order. |
| CompactionStore.ApiMetrics.OldestRows | packages/common_db/common_db/repo/api_health.py:100-103 | As many old rows as the limit allows, none left out that is earlier than one taken. |
| CompactionStore.ApiMetrics.GroupRows | packages/common_db/common_db/repo/api_health.py:104-107 | Each group lists exactly the batch rows of its hour and series. |
| CompactionStore.ApiMetrics.RollUp | packages/common_db/common_db/repo/api_health.py:117-125 | The target with the group added: sums, maximum, merged histogram. |
| CompactionStore.ApiMetrics.RollUpGroup | packages/common_db/common_db/repo/api_health.py:109-125 | Exactly one hour row is written, with the batch's share of its series added. |
| CompactionStore.ApiMetrics.RollUpGroups | packages/common_db/common_db/repo/api_health.py:108-125 | Every group ends up in its hour, the other hours are untouched. |
| CompactionStore.UnderIsEnough | packages/common_db/common_db/repo/api_health.py:104-107 | Adding up a group is adding up all batch rows of its hour and series. |

## Left out

- Delivery.Attempts: assumes that nobody frees a candidate name, changes the buyer's links or rewrites a marked description between attempts; `Provisioning.RetryAdoptsIff`, `Delivery.MoreLinksCreateAnother` and `Delivery.InterleavedOrdersGrantTwice` show that each is needed. Account ids have 64 bits and link counts 32, as in the schema.
- Delivery.Deliver: the order's squads are given resolved (`_parse_squad_slug` and the injected resolver are not modelled), panel replies always carry a user name, and notifications, log lines and the subscription number are omitted.
- Delivery.Renew: the requests carry the columns that matter here (name, description, expiry, traffic limit); squads, tag and strategy are omitted.
- Ownership.AttachKeeps: a subscription is identified by its profile id, which is unique in the table; label, source, product key and time stamps of a link are omitted.
- Merge.MergeConserves: the unique index on e-mail addresses and the commit-time flush order it needs are not modelled; owned tables are one map from row keys to accounts.
- Merge.MergeAndroidAndTg: takes two different accounts, which its one caller tests first (services/bot/app/handlers/android_link.py:160); the panel look-ups are parameters.
- PanelIndex.Build: keys are given normalised (UUID and e-mail normalisation are not modelled).
- DeliveryWorth.RenewalIsWorth: for a reliable panel; what a request that fails leaves behind is in `Delivery.Renew` and the contracts of `Panel`.
- BackfillRun.RunScript: fetching the users, the configuration and the command line are omitted, so code 3 stands for an unusable panel answer only.
- BackfillRun.RunBackfill: the database is quiescent during a run; sampling of long lists in the report and the ignored legacy values that are only counted are omitted.
- Usernames.SameNameIff: lower-casing is that of ASCII.
- Renewal.ExtensionDrift: instants are real numbers and stored expiries are read at whole seconds.
- Wallet.RedeemedKeeps: the giveaway ticket a redemption or a purchase may grant is modelled in `GiveawayStore.GiveawayTable`; integer columns are unbounded.
- WalletRuns.EveryBalanceIsItsLedger: promo codes, order ids and the references of other payments are assumed not to start with `referral:`; generated codes (capitals and digits) and order ids (UUIDs) never do.
- WalletRuns.RewardsTelescope: rate and cap are not negative.
- WalletStore.WalletStore.PurchaseWithCredits: of the order row only its id, account and days are kept.
- Giveaways.WholeRun: the calls of a run do not overlap. Only a draw and a redraw lock the giveaway they read, so the others can; `GiveawayRaces` says what an overlapping one breaks. The subscription check on join is a parameter and texts are a flag.
- Winners.WeightedRandomWinners: holds for every choice the weights allow; the distribution of the draws is not modelled.
- MenuAgreement.Build: whether a node's invoice columns are valid is given with the node (`invoice_target` and the validators), labels are omitted.
- Markers.RenewalPassesForIff: order ids and the descriptive text contain no colon and order ids no semicolon; order ids are UUIDs.
- SingleFlight.SingleFlight: no caller is cancelled while it computes or waits.
- Blob.RoundTrip: hashes, the JSON codec and its UTF-8 form are parameters; the payload is one the codec gives back; `derive_key` is not modelled, and salt and nonce may have any length.
- Base64.DecodesExactlyTheImage: text with a padding sign is refused like any other foreign symbol, so which of the two messages it gets is not captured.
- Latency.MetricAccumulator.Add: durations are real numbers, so the rounding of `dump` and floating-point error are not modelled; a histogram has no negative counts and its JSON text is not modelled.
- CompactionStore.ApiMetrics.CompactMinutes: recorded hour maxima are not negative; retention and the flush from Redis are separate jobs.
- `_deliver_telegram_paid_legacy`: repeats the delivery without the retry protocol.
- `import_subscription_by_uuid`, `rename_label`, listing and dashboard queries, catalogue rendering, CRM filters and alerts: they would only add easy members.
- HTTP, Telegram, payment gateways, migrations and front ends: no state to reason about.
