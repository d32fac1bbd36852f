/**
 * The bill and workflow state of App.tsx: the four steps, the members, the items and
 * the bill's tax and total, with the handlers that change them. The list operations
 * the handlers use (`map`, `filter`, append) are pure functions with their laws; the
 * handlers are methods of `App`, which keeps the invariants the rest of the
 * application relies on: distinct member ids that never repeat after a removal,
 * positional item ids, and assignments that only name current members.
 */
module Workflow {
  import opened BillTypes
  import opened Seqs
  import opened Identifiers
  import opened MemberNames
  import Allocation
  import Extraction

  /** The four screens, in order (App.tsx:11-16). */
  datatype Step = Upload | Members | Split | Summary

  /** The position of a step in the progress bar. */
  function StepIndex(s: Step): nat
  {
    match s
    case Upload => 0
    case Members => 1
    case Split => 2
    case Summary => 3
  }

  /** The message shown when the receipt could not be extracted (App.tsx:42). */
  const ParseFailureMessage: string := "Oops! Failed to parse the receipt. Please try again with a clearer photo."

  // ---------------------------------------------------------------------------
  // Committing an extraction (App.tsx:32-36)

  /** Item `i` has id `item-i`. */
  predicate PositionalIds(items: seq<ReceiptItem>)
  {
    forall i :: 0 <= i < |items| ==> items[i].id == ItemIdOf(i)
  }

  /** The extracted lines as receipt items: positional ids, nobody assigned. */
  function CommitItems(extracted: seq<ExtractedItem>): (r: seq<ReceiptItem>)
    ensures |r| == |extracted|
    ensures PositionalIds(r)
    ensures forall i :: 0 <= i < |r| ==>
      r[i].name == extracted[i].name && r[i].price == extracted[i].price && r[i].assignedTo == []
  {
    seq(|extracted|, i requires 0 <= i < |extracted| =>
      ReceiptItem(ItemIdOf(i), extracted[i].name, extracted[i].price, []))
  }

  /** Positional ids are distinct ids. */
  lemma PositionalIdsDistinct(items: seq<ReceiptItem>)
    requires PositionalIds(items)
    ensures forall i, j :: 0 <= i < j < |items| ==> items[i].id != items[j].id
  {
    forall i, j | 0 <= i < j < |items| ensures items[i].id != items[j].id {
      ItemIdInjective(i, j);
    }
  }

  /** Committing keeps the receipt's prices: the bill subtotal is the sum of the extracted prices. */
  lemma {:induction false} CommittedSubtotal(extracted: seq<ExtractedItem>)
    ensures Allocation.BillSubtotal(CommitItems(extracted)) == Extraction.PriceSum(extracted)
    decreases |extracted|
  {
    if extracted != [] {
      var n := |extracted|;
      assert CommitItems(extracted)[..n - 1] == CommitItems(extracted[..n - 1]);
      CommittedSubtotal(extracted[..n - 1]);
    }
  }

  /** When no usable subtotal is reported, the normalised subtotal is the bill subtotal the split is computed on. */
  lemma MissingSubtotalIsBillSubtotal(response: Extraction.ParsedResponse)
    requires !Extraction.Truthy(response.subtotal)
    ensures var data := Extraction.Normalize(response);
      data.subtotal == Allocation.BillSubtotal(CommitItems(data.items))
  {
    CommittedSubtotal(Extraction.Normalize(response).items);
  }

  // ---------------------------------------------------------------------------
  // Toggling an assignment (App.tsx:62-75)

  /** `assignedTo` with `memberId` removed if present, appended otherwise. */
  function Toggle(assignees: seq<string>, memberId: string): (r: seq<string>)
    ensures memberId in r <==> memberId !in assignees
    ensures forall x :: x != memberId ==> (x in r <==> x in assignees)
  {
    if memberId in assignees then Without(assignees, memberId) else assignees + [memberId]
  }

  /** Toggling keeps an assignee list free of duplicates and changes its length by one. */
  lemma ToggleKeepsNoDup(assignees: seq<string>, memberId: string)
    requires NoDup(assignees)
    ensures NoDup(Toggle(assignees, memberId))
    ensures |Toggle(assignees, memberId)| == if memberId in assignees then |assignees| - 1 else |assignees| + 1
  {
    if memberId in assignees {
      WithoutNoDup(assignees, memberId);
      WithoutLength(assignees, memberId);
    } else {
      AppendNoDup(assignees, memberId);
    }
  }

  /** Toggling twice restores who is assigned, and restores the list itself when the member was not on it. */
  lemma ToggleTwice(assignees: seq<string>, memberId: string)
    ensures forall x :: x in Toggle(Toggle(assignees, memberId), memberId) <==> x in assignees
    ensures memberId !in assignees ==> Toggle(Toggle(assignees, memberId), memberId) == assignees
  {
    if memberId !in assignees {
      WithoutAppended(assignees, memberId);
    }
  }

  /** One item after a toggle. */
  function ToggleItem(item: ReceiptItem, itemId: string, memberId: string): ReceiptItem
  {
    if item.id == itemId then item.(assignedTo := Toggle(item.assignedTo, memberId)) else item
  }

  /** `items` after toggling `memberId` on the item(s) with id `itemId`; the others are untouched. */
  function ToggleAssignment(items: seq<ReceiptItem>, itemId: string, memberId: string): (r: seq<ReceiptItem>)
    ensures |r| == |items|
    ensures forall i :: 0 <= i < |items| ==>
      r[i].id == items[i].id && r[i].name == items[i].name && r[i].price == items[i].price
    ensures forall i :: 0 <= i < |items| && items[i].id != itemId ==> r[i] == items[i]
    ensures forall i :: 0 <= i < |items| && items[i].id == itemId ==>
      (memberId in r[i].assignedTo <==> memberId !in items[i].assignedTo)
      && forall x :: x != memberId ==> (x in r[i].assignedTo <==> x in items[i].assignedTo)
  {
    seq(|items|, i requires 0 <= i < |items| => ToggleItem(items[i], itemId, memberId))
  }

  /** Toggling the same pair twice restores every item's assignees, exactly when the member was on none of the matching items. */
  lemma ToggleAssignmentTwice(items: seq<ReceiptItem>, itemId: string, memberId: string)
    ensures var r := ToggleAssignment(ToggleAssignment(items, itemId, memberId), itemId, memberId);
      && |r| == |items|
      && (forall i :: 0 <= i < |items| ==>
            r[i].id == items[i].id && r[i].name == items[i].name && r[i].price == items[i].price
            && forall x :: x in r[i].assignedTo <==> x in items[i].assignedTo)
      && ((forall i :: 0 <= i < |items| && items[i].id == itemId ==> memberId !in items[i].assignedTo) ==> r == items)
  {
    var once := ToggleAssignment(items, itemId, memberId);
    var r := ToggleAssignment(once, itemId, memberId);
    forall i | 0 <= i < |items| ensures r[i] == ToggleItem(ToggleItem(items[i], itemId, memberId), itemId, memberId) {
    }
    forall i | 0 <= i < |items| ensures forall x :: x in r[i].assignedTo <==> x in items[i].assignedTo {
      ToggleTwice(items[i].assignedTo, memberId);
    }
    if forall i :: 0 <= i < |items| && items[i].id == itemId ==> memberId !in items[i].assignedTo {
      forall i | 0 <= i < |items| ensures r[i] == items[i] {
        ToggleTwice(items[i].assignedTo, memberId);
      }
    }
  }

  /** Toggling a current member keeps the assignment referentially sound. */
  lemma ToggleKeepsReferential(items: seq<ReceiptItem>, members: seq<Member>, itemId: string, memberId: string)
    requires Allocation.Referential(items, members)
    requires memberId in Ids(members)
    ensures Allocation.Referential(ToggleAssignment(items, itemId, memberId), members)
  {
    var r := ToggleAssignment(items, itemId, memberId);
    forall i | 0 <= i < |r| ensures NoDup(r[i].assignedTo) {
      if items[i].id == itemId {
        assert r[i].assignedTo == Toggle(items[i].assignedTo, memberId);
        ToggleKeepsNoDup(items[i].assignedTo, memberId);
      }
    }
  }

  /** Toggling never changes the bill subtotal: no price moves. */
  lemma ToggleKeepsBillSubtotal(items: seq<ReceiptItem>, itemId: string, memberId: string)
    ensures Allocation.BillSubtotal(ToggleAssignment(items, itemId, memberId)) == Allocation.BillSubtotal(items)
  {
    SamePricesSameSubtotal(items, ToggleAssignment(items, itemId, memberId));
  }

  /** Two item lists with the same prices position by position have the same bill subtotal. */
  lemma {:induction false} SamePricesSameSubtotal(a: seq<ReceiptItem>, b: seq<ReceiptItem>)
    requires |a| == |b|
    requires forall i :: 0 <= i < |a| ==> a[i].price == b[i].price
    ensures Allocation.BillSubtotal(a) == Allocation.BillSubtotal(b)
    decreases |a|
  {
    if a != [] {
      SamePricesSameSubtotal(a[..|a| - 1], b[..|b| - 1]);
    }
  }

  // ---------------------------------------------------------------------------
  // Removing a member (App.tsx:53-60)

  /** `members.filter(m => m.id !== id)`. */
  function WithoutMember(members: seq<Member>, id: string): (r: seq<Member>)
    ensures |r| <= |members|
    ensures forall m :: m in r <==> m in members && m.id != id
  {
    FilterMembers(members, (m: Member) => m.id != id);
    Filter(members, (m: Member) => m.id != id)
  }

  /** Every item with `id` dropped from its assignees; ids, names and prices stay. */
  function StripMember(items: seq<ReceiptItem>, id: string): (r: seq<ReceiptItem>)
    ensures |r| == |items|
    ensures forall i :: 0 <= i < |items| ==>
      r[i].id == items[i].id && r[i].name == items[i].name && r[i].price == items[i].price
    ensures forall i :: 0 <= i < |items| ==>
      id !in r[i].assignedTo && forall x :: x != id ==> (x in r[i].assignedTo <==> x in items[i].assignedTo)
  {
    seq(|items|, i requires 0 <= i < |items| => items[i].(assignedTo := Without(items[i].assignedTo, id)))
  }

  /** Removal keeps the remaining members in their order. */
  lemma WithoutMemberConcat(a: seq<Member>, b: seq<Member>, id: string)
    ensures WithoutMember(a + b, id) == WithoutMember(a, id) + WithoutMember(b, id)
  {
    FilterConcat(a, b, (m: Member) => m.id != id);
  }

  /** Removing an id nobody has changes nothing. */
  lemma WithoutUnknownMember(members: seq<Member>, id: string)
    requires id !in Ids(members)
    ensures WithoutMember(members, id) == members
  {
    forall m | m in members ensures m.id != id {
      var i :| 0 <= i < |members| && members[i] == m;
      assert Ids(members)[i] == m.id;
    }
    FilterKeepsAll(members, (m: Member) => m.id != id);
  }

  /** Removal keeps member ids distinct. */
  lemma {:induction false} WithoutMemberDistinct(members: seq<Member>, id: string)
    requires DistinctIds(members)
    ensures DistinctIds(WithoutMember(members, id))
    decreases |members|
  {
    if members != [] {
      var prefix, last := members[..|members| - 1], members[|members| - 1];
      assert DistinctIds(prefix);
      WithoutMemberDistinct(prefix, id);
      var kept := WithoutMember(prefix, id);
      assert WithoutMember(members, id) == kept + (if last.id != id then [last] else []);
      if last.id != id {
        forall k | 0 <= k < |kept| ensures kept[k].id != last.id {
          assert kept[k] in prefix;
          var j :| 0 <= j < |prefix| && prefix[j] == kept[k];
          assert members[j].id != members[|members| - 1].id;
        }
      } else {
        assert kept + [] == kept;
      }
    }
  }

  /** Removing one member of a list with distinct ids shortens it by one. */
  lemma {:induction false} WithoutMemberLength(members: seq<Member>, id: string)
    requires DistinctIds(members) && id in Ids(members)
    ensures |WithoutMember(members, id)| == |members| - 1
    decreases |members|
  {
    var prefix, last := members[..|members| - 1], members[|members| - 1];
    assert members == prefix + [last];
    assert DistinctIds(prefix);
    assert WithoutMember(members, id) == WithoutMember(prefix, id) + (if last.id != id then [last] else []);
    if last.id == id {
      assert id !in Ids(prefix) by {
        forall k | 0 <= k < |prefix| ensures Ids(prefix)[k] != id {
          assert members[k].id != members[|members| - 1].id;
        }
      }
      WithoutUnknownMember(prefix, id);
    } else {
      assert id in Ids(prefix) by {
        var k :| 0 <= k < |members| && Ids(members)[k] == id;
        assert k < |prefix| && Ids(prefix)[k] == id;
      }
      WithoutMemberLength(prefix, id);
    }
  }

  /** Removing a member and its assignments keeps the assignment referentially sound. */
  lemma StripKeepsReferential(items: seq<ReceiptItem>, members: seq<Member>, id: string)
    requires Allocation.Referential(items, members)
    ensures Allocation.Referential(StripMember(items, id), WithoutMember(members, id))
  {
    var r, remaining := StripMember(items, id), WithoutMember(members, id);
    forall i | 0 <= i < |r|
      ensures NoDup(r[i].assignedTo) && forall a :: a in r[i].assignedTo ==> a in Ids(remaining)
    {
      assert r[i].assignedTo == Without(items[i].assignedTo, id);
      WithoutNoDup(items[i].assignedTo, id);
      forall a | a in r[i].assignedTo ensures a in Ids(remaining) {
        assert a in Ids(members);
        var k :| 0 <= k < |members| && Ids(members)[k] == a;
        assert members[k] in remaining;
        var j :| 0 <= j < |remaining| && remaining[j] == members[k];
        assert Ids(remaining)[j] == a;
      }
    }
  }

  /** After a removal the member gets no summary, and every other summary is computed on the stripped items. */
  lemma RemovedMemberNotSummarized(items: seq<ReceiptItem>, members: seq<Member>, id: string, totalTax: real, tipPercentage: real)
    ensures var ss := Allocation.Summaries(StripMember(items, id), WithoutMember(members, id), totalTax, tipPercentage);
      forall k :: 0 <= k < |ss| ==> ss[k].memberId != id
  {
    var remaining := WithoutMember(members, id);
    forall k | 0 <= k < |remaining| ensures remaining[k].id != id {
      assert remaining[k] in remaining;
    }
  }

  // ---------------------------------------------------------------------------
  // The application state

  /** Member id `id` was handed out while the counter was below `serial`. */
  ghost predicate IssuedBefore(id: string, serial: nat)
  {
    exists k: nat :: k < serial && id == MemberIdOf(k)
  }

  /** The state of App.tsx:19-25, with a counter in place of the clock behind fresh member ids. */
  class App {
    var currentStep: Step
    var members: seq<Member>
    var items: seq<ReceiptItem>
    var tax: real
    var total: real
    var error: Option<string>
    /** The number the next new member's id is made from. */
    var nextSerial: nat

    /** Item ids are positional, member ids distinct, and every member id already issued. */
    ghost predicate Valid()
      reads this
    {
      && PositionalIds(items)
      && DistinctIds(members)
      && forall m :: m in members ==> IssuedBefore(m.id, nextSerial)
    }

    /** Every assignment names a current member at most once per item. */
    ghost predicate Consistent()
      reads this
    {
      Allocation.Referential(items, members)
    }

    /** The initial state: uploading, nothing entered, no error. */
    constructor ()
      ensures currentStep == Upload && members == [] && items == []
      ensures tax == 0.0 && total == 0.0 && error == None && nextSerial == 0
      ensures Valid() && Consistent()
    {
      currentStep := Upload;
      members := [];
      items := [];
      tax := 0.0;
      total := 0.0;
      error := None;
      nextSerial := 0;
    }

    /**
     * `handleImageCaptured` once the extraction has settled (App.tsx:27-46): `response`
     * is the parsed reply, or `Err` when the request, the reply or its parsing failed.
     * On success the normalised items replace the old ones and the bill moves to the
     * members step; on failure only the error message changes.
     */
    method HandleImageCaptured(response: Result<Extraction.ParsedResponse>)
      requires Valid()
      modifies this
      ensures response.Ok? ==>
        var data := Extraction.Normalize(response.value);
        && items == CommitItems(data.items) && tax == data.tax && total == data.total
        && currentStep == Members && error == None
      ensures response.Err? ==>
        && items == old(items) && tax == old(tax) && total == old(total)
        && currentStep == old(currentStep) && error == Some(ParseFailureMessage)
      ensures members == old(members) && nextSerial == old(nextSerial)
      ensures Valid()
      ensures response.Ok? || old(Consistent()) ==> Consistent()
    {
      error := None;
      match response
      case Ok(parsed) =>
        var data := Extraction.Normalize(parsed);
        items := CommitItems(data.items);
        tax := data.tax;
        total := data.total;
        currentStep := Members;
      case Err =>
        error := Some(ParseFailureMessage);
    }

    /** `addMember` (App.tsx:48-51), with the name as the form submits it (MemberManager.tsx:17-18). */
    method AddMember(name: string)
      requires Valid() && IsTrimmedName(name)
      modifies this
      ensures MemberIdOf(old(nextSerial)) !in Ids(old(members))
      ensures members == old(members) + [Member(MemberIdOf(old(nextSerial)), name)]
      ensures nextSerial == old(nextSerial) + 1
      ensures items == old(items) && tax == old(tax) && total == old(total)
      ensures currentStep == old(currentStep) && error == old(error)
      ensures Valid()
      ensures old(Consistent()) ==> Consistent()
    {
      var newId := MemberIdOf(nextSerial);
      forall k | 0 <= k < |members| ensures members[k].id != newId {
        assert members[k] in members;
        var serial: nat :| serial < nextSerial && members[k].id == MemberIdOf(serial);
        MemberIdInjective(serial, nextSerial);
      }
      IdsAppend(members, Member(newId, name));
      AppendDistinct(members, Member(newId, name));
      members := members + [Member(newId, name)];
      nextSerial := nextSerial + 1;
    }

    /** `removeMember` (App.tsx:53-60): the member goes, and so do its assignments. */
    method RemoveMember(id: string)
      requires Valid()
      modifies this
      ensures members == WithoutMember(old(members), id)
      ensures items == StripMember(old(items), id)
      ensures tax == old(tax) && total == old(total) && currentStep == old(currentStep)
      ensures error == old(error) && nextSerial == old(nextSerial)
      ensures Valid()
      ensures old(Consistent()) ==> Consistent()
    {
      if Consistent() {
        StripKeepsReferential(items, members, id);
      }
      WithoutMemberDistinct(members, id);
      members := WithoutMember(members, id);
      items := StripMember(items, id);
    }

    /** `toggleItemAssignment` (App.tsx:62-75). */
    method ToggleItemAssignment(itemId: string, memberId: string)
      requires Valid()
      modifies this
      ensures items == ToggleAssignment(old(items), itemId, memberId)
      ensures members == old(members) && tax == old(tax) && total == old(total)
      ensures currentStep == old(currentStep) && error == old(error) && nextSerial == old(nextSerial)
      ensures Valid()
      ensures old(Consistent()) && memberId in Ids(members) ==> Consistent()
    {
      if Consistent() && memberId in Ids(members) {
        ToggleKeepsReferential(items, members, itemId, memberId);
      }
      items := ToggleAssignment(items, itemId, memberId);
    }

    /** `goBack` (App.tsx:77-81): one step back, and nothing from the upload step. */
    method GoBack()
      modifies this
      ensures StepIndex(currentStep) == if old(currentStep) == Upload then 0 else StepIndex(old(currentStep)) - 1
      ensures members == old(members) && items == old(items) && tax == old(tax) && total == old(total)
      ensures error == old(error) && nextSerial == old(nextSerial)
    {
      if currentStep == Members {
        currentStep := Upload;
      } else if currentStep == Split {
        currentStep := Members;
      } else if currentStep == Summary {
        currentStep := Split;
      }
    }

    /** `reset` once confirmed (App.tsx:83-91): the bill is cleared; the error and the id counter stay. */
    method Reset()
      modifies this
      ensures items == [] && members == [] && tax == 0.0 && total == 0.0 && currentStep == Upload
      ensures error == old(error) && nextSerial == old(nextSerial)
      ensures Valid() && Consistent()
    {
      items := [];
      members := [];
      tax := 0.0;
      total := 0.0;
      currentStep := Upload;
    }

    /** The "Next: Assign Items" button (App.tsx:223-226): enabled only with at least one member. */
    method AdvanceToSplit()
      modifies this
      ensures currentStep == if old(currentStep) == Members && |members| > 0 then Split else old(currentStep)
      ensures members == old(members) && items == old(items) && tax == old(tax) && total == old(total)
      ensures error == old(error) && nextSerial == old(nextSerial)
    {
      if currentStep == Members && |members| != 0 {
        currentStep := Split;
      }
    }

    /** The "Calculate Final Split" button (App.tsx:234-237): enabled only when every item has an assignee. */
    method AdvanceToSummary()
      modifies this
      ensures currentStep == if old(currentStep) == Split && Allocation.AllAssigned(items) then Summary else old(currentStep)
      ensures members == old(members) && items == old(items) && tax == old(tax) && total == old(total)
      ensures error == old(error) && nextSerial == old(nextSerial)
    {
      if currentStep == Split && !exists i :: 0 <= i < |items| && |items[i].assignedTo| == 0 {
        currentStep := Summary;
      }
    }
  }

  /** Appending a member whose id is new keeps ids distinct. */
  lemma AppendDistinct(members: seq<Member>, m: Member)
    requires DistinctIds(members)
    requires forall k :: 0 <= k < |members| ==> members[k].id != m.id
    ensures DistinctIds(members + [m])
  {
  }
}
