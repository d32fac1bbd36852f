/**
 * The records of types.ts, with money as exact reals.
 */
module BillTypes {

  datatype Option<T> = None | Some(value: T)

  /** The outcome of an asynchronous call that either resolves with a value or throws. */
  datatype Result<T> = Ok(value: T) | Err

  /** A receipt line (`ReceiptItem`, types.ts:2-7); `assignedTo` lists member ids. */
  datatype ReceiptItem = ReceiptItem(id: string, name: string, price: real, assignedTo: seq<string>)

  /** A person sharing the bill (`Member`, types.ts:9-12). */
  datatype Member = Member(id: string, name: string)

  /** A receipt line as the extraction reports it: `ReceiptItem` without `id` and `assignedTo` (types.ts:15). */
  datatype ExtractedItem = ExtractedItem(name: string, price: real)

  /** The normalised extraction result (`ReceiptData`, types.ts:14-19). */
  datatype ReceiptData = ReceiptData(items: seq<ExtractedItem>, subtotal: real, tax: real, total: real)

  /** What one member owes (`BillSummary`, types.ts:21-28). */
  datatype BillSummary = BillSummary(memberId: string, memberName: string, subtotal: real, tax: real, tip: real, total: real)

  /** The ids of `members`, in member order. */
  function Ids(members: seq<Member>): (r: seq<string>)
    ensures |r| == |members|
    ensures forall i :: 0 <= i < |members| ==> r[i] == members[i].id
  {
    seq(|members|, i requires 0 <= i < |members| => members[i].id)
  }

  /** Appending a member appends its id. */
  lemma IdsAppend(members: seq<Member>, m: Member)
    ensures Ids(members + [m]) == Ids(members) + [m.id]
  {
  }

  /** No two members share an id. */
  predicate DistinctIds(members: seq<Member>)
  {
    forall i, j :: 0 <= i < j < |members| ==> members[i].id != members[j].id
  }
}
