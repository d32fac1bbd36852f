# Smart bill splitter: a Dafny model of its core

The application photographs a receipt, has an external vision service extract the
receipt lines, and lets a group divide the bill. Three pieces of logic sit inside its
user interface, and this project models each of them and proves their properties.

- **Allocation engine** (`Allocation`, allocation.dfy). This is the `summaries`
  computation of the summary screen. It produces one `BillSummary` per member:
  - each item's price is split equally among the members assigned to it;
  - the bill's tax is shared in proportion to each member's subtotal, and is zero on a
    zero bill;
  - the tip is a percentage of the member's own subtotal;
  - the total is the sum of the three.

  The per-member subtotal is accumulated by a loop in the source, so it is a method
  (`ComputeSubtotal`) proved equal to a recursive function. The whole map is
  `ComputeSummaries`. Money is exact `real`.
- **Bill and workflow state** (`Workflow`, workflow.dfy). This is the application
  component's state: the current step (upload, members, split, summary), the members,
  the items, the tax, the total and the error message.
  - It is a class, `Workflow.App`. Each handler is a method that reassigns fields from
    pure list operations (`CommitItems`, `ToggleAssignment`, `WithoutMember`,
    `StripMember`).
  - The methods keep two invariants. `Valid` says item ids are positional, member ids
    are distinct, and every member id was issued by the id counter. `Consistent` says
    every assignment names a current member, at most once per item.
  - The forward buttons are methods that do nothing while the button is disabled.
- **Extraction normalisation** (`Extraction`, extraction.dfy). This is the pure part of
  the receipt service:
  - the base64 payload cut out of the image's data URL;
  - the defaulting of the parsed reply into a `ReceiptData`. This includes
    JavaScript's `||` rule that a reported `0` counts as missing.

Supporting modules:
- `BillTypes` (types.dfy) holds the records.
- `Identifiers` (identifiers.dfy) builds member ids from a counter and item ids from
  positions, and proves both injective.
- `MemberNames` (names.dfy) is the member form's trim-and-reject-blank rule, with
  JavaScript's set of whitespace characters.
- `Seqs` (seqs.dfy) is `filter` and "no duplicates".

What the proofs establish:
- Money is conserved when every item is assigned to distinct current members and the
  bill subtotal is positive. The subtotals add up to the bill subtotal, the tax shares
  to the tax, and the tips to the tip on the bill subtotal. The grand total is the sum
  of those three.
- Without full assignment, the subtotals add up to the price of the assigned items.
- An item is paid exactly once by its assignees.
- A zero bill gives all-zero summaries.
- The summaries follow the member order.
- Toggling twice restores the assignment.
- Removing a member leaves no reference to it, and keeps the others in order.
- A new member's id is fresh.
- Extraction commits or fails atomically.
- The data-URL payload is its second comma-separated field.

## Model

| member | source | states |
|---|---|---|
| Allocation.ComputeSubtotal | components/SplitSummary.tsx:18-23 | the accumulating loop computes exactly the member's subtotal: the sum over the items of price / number of assignees, for items that list the member |
| Allocation.ComputeSummaries | components/SplitSummary.tsx:17-37 | one summary per member, in member order, with that member's id and name, its subtotal, a tip of subtotal × percentage / 100, and total = subtotal + tax + tip |
| Allocation.OnlyMentioningItemsCount | components/SplitSummary.tsx:18-23 | a member's subtotal is the same when computed over only the items that list it: unassigned items and items of other members add nothing |
| Allocation.ItemPaidOnce | components/SplitSummary.tsx:20-21 | equal-split law: with distinct member ids and a duplicate-free list of current assignees, the assignees' shares of an item add up to its price, or to 0 when nobody is assigned |
| Allocation.SubtotalsConserved | components/SplitSummary.tsx:17-25 | with distinct members and sound assignments, the summaries' subtotals add up to the price of the assigned items |
| Allocation.AllAssignedIsWholeBill | components/SplitSummary.tsx:25 | when every item has an assignee, the assigned items' prices add up to the bill subtotal |
| Allocation.TaxConserved | components/SplitSummary.tsx:25-26 | on a positive bill whose subtotals add up to the bill subtotal, the proportional tax shares add up to the whole tax |
| Allocation.TipsAndTotals | components/SplitSummary.tsx:27-39 | on any bill, the tips add up to the tip on the summed subtotals, and the grand total is the sum of the subtotals, tax shares and tips |
| Allocation.Conservation | components/SplitSummary.tsx:17-39 | full assignment to distinct current members on a positive bill: subtotals sum to the bill subtotal, tax shares to the tax, tips to bill subtotal × percentage / 100, and the grand total to their sum |
| Allocation.ZeroBill | components/SplitSummary.tsx:19-27 | with non-negative prices and a zero bill subtotal, every subtotal, tax share, tip and total is 0 |
| Allocation.SummariesConcat | components/SplitSummary.tsx:17 | the map follows the member list: the summaries of two groups in sequence are the summaries of the concatenated list |
| Allocation.SummaryIsLocal | components/SplitSummary.tsx:18-27 | a member's subtotal and tip depend only on the items and its own id, not on the other members or on the tax |
| Extraction.Normalize | services/geminiService.ts:51-56 | items default to none; the subtotal is the reported one when present and non-zero, otherwise the sum of the item prices; tax and total default to 0; items pass through unchanged and in order |
| Extraction.Split | services/geminiService.ts:16 | splitting on a separator yields at least one part, more than one exactly when the separator occurs, no part contains it, and joining the parts gives the input back |
| Extraction.ImagePayload | services/geminiService.ts:16 | there is a payload exactly when the data URL contains a comma, and the payload contains no comma |
| Extraction.PayloadOfDataUrl | services/geminiService.ts:16 | for a header and payload without commas, followed by nothing or by a comma, the payload sent is exactly that payload |
| Identifiers.NatToString | App.tsx:49 | the decimal rendering of a counter value is a non-empty string of digits, one digit long exactly below 10 |
| Identifiers.NatToStringInjective | App.tsx:49 | different numbers render differently |
| Identifiers.MemberIdInjective | App.tsx:49 | two member ids are equal exactly when their counter values are |
| Identifiers.ItemIdInjective | App.tsx:34 | two item ids are equal exactly when their positions are |
| MemberNames.TrimStart | components/MemberManager.tsx:17 | leading whitespace removal yields a suffix of the input, drops only whitespace, and leaves no whitespace in front |
| MemberNames.TrimEnd | components/MemberManager.tsx:17 | trailing whitespace removal yields a prefix of the input, drops only whitespace, and leaves no whitespace at the end |
| MemberNames.TrimIsSlice | components/MemberManager.tsx:17 | the trimmed name is a contiguous slice of the input with only whitespace outside it |
| MemberNames.TrimSpec | components/MemberManager.tsx:17-18 | the trimmed name is a slice of the input with only whitespace around it; it is empty or has no whitespace at either end; it is empty exactly when the input is all whitespace |
| MemberNames.TrimIdempotent | components/MemberManager.tsx:17-18 | trimming a trimmed name changes nothing |
| MemberNames.SubmittedName | components/MemberManager.tsx:17-18 | the form adds the trimmed name, which has no whitespace at either end, and adds nothing exactly when the input is all whitespace |
| Workflow.CommitItems | App.tsx:32-36 | the extracted lines become items in the same order, with ids item-0 … item-(n-1), the extracted names and prices, and nobody assigned |
| Workflow.PositionalIdsDistinct | App.tsx:34 | positional item ids are pairwise distinct |
| Workflow.CommittedSubtotal | App.tsx:32-36 | committing keeps the prices: the bill subtotal of the committed items is the sum of the extracted prices |
| Workflow.MissingSubtotalIsBillSubtotal | services/geminiService.ts:53 | when the reply has no usable subtotal, the normalised subtotal equals the bill subtotal that the split is computed on |
| Workflow.Toggle | App.tsx:65-70 | the member is present afterwards exactly when it was absent before, and no other id changes membership |
| Workflow.ToggleKeepsNoDup | App.tsx:65-70 | toggling keeps an assignee list free of duplicates and changes its length by exactly one |
| Workflow.ToggleTwice | App.tsx:65-70 | toggling twice restores who is assigned, and restores the exact list when the member was initially absent |
| Workflow.ToggleAssignment | App.tsx:62-75 | items with another id are unchanged; on matching items only the toggled member's presence flips; ids, names and prices never change |
| Workflow.ToggleAssignmentTwice | App.tsx:62-75 | toggling the same item and member twice restores every item's assignees, and the exact items when the member was on none of the matching items |
| Workflow.ToggleKeepsReferential | App.tsx:62-75 | toggling a current member keeps every assignment naming current members with no duplicates |
| Workflow.ToggleKeepsBillSubtotal | App.tsx:62-75 | toggling never changes the bill subtotal |
| Workflow.WithoutMember | App.tsx:54 | the remaining members are exactly those with a different id |
| Workflow.StripMember | App.tsx:56-59 | no item lists the removed id afterwards, other assignees are kept, and ids, names and prices are unchanged |
| Workflow.WithoutMemberConcat | App.tsx:54 | removal keeps the remaining members in their relative order |
| Workflow.WithoutUnknownMember | App.tsx:54 | removing an id no member has leaves the list unchanged |
| Workflow.WithoutMemberDistinct | App.tsx:54 | removal keeps member ids distinct |
| Workflow.WithoutMemberLength | App.tsx:54 | removing a current member from a list with distinct ids removes exactly one member |
| Workflow.StripKeepsReferential | App.tsx:53-60 | after the cascade, every assignment names a remaining member, with no duplicates |
| Workflow.RemovedMemberNotSummarized | App.tsx:53-60 | after removal, no summary carries the removed member's id |
| Workflow.App.constructor | App.tsx:19-25 | the initial state is the upload step with no members, no items, zero tax and total, and no error |
| Workflow.App.HandleImageCaptured | App.tsx:27-46 | on success, the normalised items replace the old ones (positional ids, nobody assigned), tax and total are set, the step becomes members and the error is cleared; on failure, only the error message changes; members are never touched |
| Workflow.App.AddMember | App.tsx:48-51 | exactly one member is appended, with the given name and an id no existing member has; nothing else changes; the invariants are kept |
| Workflow.App.RemoveMember | App.tsx:53-60 | the member is filtered out and its id is stripped from every item; nothing else changes; the invariants are kept |
| Workflow.App.ToggleItemAssignment | App.tsx:62-75 | the items become the toggled items; nothing else changes; consistency is kept when the member is current |
| Workflow.App.GoBack | App.tsx:77-81 | exactly one step back, from members to upload, from split to members, from summary to split; nothing at the upload step; nothing else changes |
| Workflow.App.Reset | App.tsx:83-91 | items and members are emptied, tax and total zeroed, the step is upload; the error message and the id counter stay |
| Workflow.App.AdvanceToSplit | App.tsx:223-226 | the step moves from members to split exactly when there is at least one member; otherwise nothing changes |
| Workflow.App.AdvanceToSummary | App.tsx:234-237 | the step moves from split to summary exactly when every item has an assignee; otherwise nothing changes |

## Left out

- The vision-service request is not modelled. That covers the API key, the model choice, the prompt, the response schema and `JSON.parse` (services/geminiService.ts:6-50). `HandleImageCaptured` takes the parsed reply, or `Err` for any failure of the request, the reply or its parsing.
- Binary floating point, `toFixed(2)` rounding and currency formatting are not modelled: money is exact `real`.
- The "(est.)" tip shown on the summary screen (components/SplitSummary.tsx:53) is not modelled. It is a display approximation.
- The `confirm()` dialog in `reset` (App.tsx:84) is not modelled. `Reset` is the confirmed branch; declining changes nothing.
- `Workflow.App.HandleImageCaptured`: the `isLoading` flag, the wait for the service and the `console.error` log are not modelled. The method is the state change once the call has settled.
- Two extractions running at once are not modelled. The later-settling one wins in the source.
- Member ids come from a counter (`mem-` followed by its value) instead of the millisecond clock (App.tsx:49). That makes freshness a proved invariant. The clock's collision risk, two members added in the same millisecond, is therefore not modelled.
- `Workflow.App.AddMember` requires a trimmed, non-blank name. The handler itself accepts any string, but its only caller trims and rejects blank input first (components/MemberManager.tsx:17-18). That caller is `MemberNames.SubmittedName`.
- `Workflow.App.ToggleItemAssignment` keeps `Consistent` only when the member is current. The handler appends any id it is given. The UI passes only the ids of listed members (components/BillSplitter.tsx:40), which is not part of this model.
- Receipt upload and file reading (components/ReceiptUploader.tsx) are not part of this model. Neither are rendering, the progress bar, styling or the settlement button's alert stub (App.tsx:214).
- `Extraction.Normalize` does not model a reply whose fields have the wrong JSON type, or a `NaN` price. The reply is a record of optional numbers and lists.

Where the application's specification and its code disagree, the model follows the code:
- The specification calls toggling an unknown id a no-op. The code appends an unknown member id, and adds nothing when the item id is unknown.
- The specification says negative or non-numeric prices are coerced or rejected, and that a reply missing `items` or `total` is an error. The code passes prices through unchanged and defaults the missing fields.
- The specification says a failed extraction leaves the workflow at the upload step. The code leaves the step as it was. The step is the upload step whenever the upload control is on screen.
