/**
 * The allocation engine of components/SplitSummary.tsx: from the items, the members,
 * the bill tax and a tip percentage, one `BillSummary` per member.
 *
 * Every item's price is split equally among its assignees; the tax is shared in
 * proportion to each member's subtotal; the tip is a percentage of the member's own
 * subtotal. Sums are defined by their last element, as the source's left folds
 * (`forEach` with `+=`, `reduce`) compute them.
 */
module Allocation {
  import opened BillTypes
  import opened Seqs

  /** The tip percentage the summary starts with (SplitSummary.tsx:14). */
  const DefaultTipPercentage: real := 18.0

  /** What `item` adds to the subtotal of member `memberId` (SplitSummary.tsx:20-21). */
  function ItemShare(item: ReceiptItem, memberId: string): real
  {
    if memberId in item.assignedTo then item.price / (|item.assignedTo| as real) else 0.0
  }

  /** The subtotal of member `memberId`: the sum of its shares of every item (SplitSummary.tsx:18-23). */
  function MemberSubtotal(items: seq<ReceiptItem>, memberId: string): real
    decreases |items|
  {
    if items == [] then 0.0
    else MemberSubtotal(items[..|items| - 1], memberId) + ItemShare(items[|items| - 1], memberId)
  }

  /** The sum of all item prices (SplitSummary.tsx:25). */
  function BillSubtotal(items: seq<ReceiptItem>): real
    decreases |items|
  {
    if items == [] then 0.0 else BillSubtotal(items[..|items| - 1]) + items[|items| - 1].price
  }

  /** The member's part of the tax: proportional to its subtotal, and zero on a zero bill (SplitSummary.tsx:26). */
  function TaxShare(subtotal: real, billSubtotal: real, totalTax: real): real
  {
    if billSubtotal > 0.0 then (subtotal / billSubtotal) * totalTax else 0.0
  }

  /** The member's tip: a percentage of its own subtotal (SplitSummary.tsx:27). */
  function TipAmount(subtotal: real, tipPercentage: real): real
  {
    subtotal * (tipPercentage / 100.0)
  }

  /** The summary record (SplitSummary.tsx:29-36). */
  function MakeSummary(member: Member, subtotal: real, billSubtotal: real, totalTax: real, tipPercentage: real): BillSummary
  {
    var taxShare := TaxShare(subtotal, billSubtotal, totalTax);
    var tipAmount := TipAmount(subtotal, tipPercentage);
    BillSummary(member.id, member.name, subtotal, taxShare, tipAmount, subtotal + taxShare + tipAmount)
  }

  /** The summary of one member. */
  function Summarize(items: seq<ReceiptItem>, member: Member, totalTax: real, tipPercentage: real): BillSummary
  {
    MakeSummary(member, MemberSubtotal(items, member.id), BillSubtotal(items), totalTax, tipPercentage)
  }

  /** `members.map(...)` (SplitSummary.tsx:17-37). */
  function Summaries(items: seq<ReceiptItem>, members: seq<Member>, totalTax: real, tipPercentage: real): seq<BillSummary>
  {
    seq(|members|, i requires 0 <= i < |members| => Summarize(items, members[i], totalTax, tipPercentage))
  }

  /** The sum of the members' totals (SplitSummary.tsx:39). */
  function GrandTotal(summaries: seq<BillSummary>): real
    decreases |summaries|
  {
    if summaries == [] then 0.0 else GrandTotal(summaries[..|summaries| - 1]) + summaries[|summaries| - 1].total
  }

  /** The `forEach` loop of SplitSummary.tsx:18-23, accumulating into a mutable subtotal. */
  method ComputeSubtotal(items: seq<ReceiptItem>, memberId: string) returns (subtotal: real)
    ensures subtotal == MemberSubtotal(items, memberId)
  {
    subtotal := 0.0;
    var k := 0;
    while k < |items|
      invariant 0 <= k <= |items|
      invariant subtotal == MemberSubtotal(items[..k], memberId)
    {
      var item := items[k];
      if memberId in item.assignedTo {
        subtotal := subtotal + item.price / (|item.assignedTo| as real);
      }
      assert items[..k + 1][..k] == items[..k];
      k := k + 1;
    }
    assert items[..k] == items;
  }

  /** The whole `summaries` computation: one summary per member, in member order, with its own id and name. */
  method ComputeSummaries(items: seq<ReceiptItem>, members: seq<Member>, totalTax: real, tipPercentage: real)
    returns (summaries: seq<BillSummary>)
    ensures summaries == Summaries(items, members, totalTax, tipPercentage)
    ensures |summaries| == |members|
    ensures forall i :: 0 <= i < |members| ==>
      && summaries[i].memberId == members[i].id
      && summaries[i].memberName == members[i].name
      && summaries[i].subtotal == MemberSubtotal(items, members[i].id)
      && summaries[i].tip == summaries[i].subtotal * (tipPercentage / 100.0)
      && summaries[i].total == summaries[i].subtotal + summaries[i].tax + summaries[i].tip
  {
    summaries := [];
    var k := 0;
    while k < |members|
      invariant 0 <= k <= |members|
      invariant |summaries| == k
      invariant forall i :: 0 <= i < k ==> summaries[i] == Summarize(items, members[i], totalTax, tipPercentage)
    {
      var member := members[k];
      var subtotal := ComputeSubtotal(items, member.id);
      var billSubtotal := BillSubtotal(items);
      summaries := summaries + [MakeSummary(member, subtotal, billSubtotal, totalTax, tipPercentage)];
      k := k + 1;
    }
  }

  /** The map follows the member list: summarising two groups one after the other summarises their concatenation. */
  lemma SummariesConcat(items: seq<ReceiptItem>, a: seq<Member>, b: seq<Member>, totalTax: real, tipPercentage: real)
    ensures Summaries(items, a + b, totalTax, tipPercentage)
      == Summaries(items, a, totalTax, tipPercentage) + Summaries(items, b, totalTax, tipPercentage)
  {
  }

  /**
   * A member's subtotal and tip depend only on the items and its own id: not on the
   * other members, their order or the tax.
   */
  lemma SummaryIsLocal(items: seq<ReceiptItem>, members: seq<Member>, others: seq<Member>, i: nat, j: nat,
                       totalTax: real, otherTax: real, tipPercentage: real)
    requires i < |members| && j < |others| && members[i].id == others[j].id
    ensures var s, t := Summaries(items, members, totalTax, tipPercentage)[i], Summaries(items, others, otherTax, tipPercentage)[j];
      && s.subtotal == t.subtotal == MemberSubtotal(items, members[i].id)
      && s.tip == t.tip
  {
  }

  // ---------------------------------------------------------------------------
  // Sums used to state conservation.

  ghost function SubtotalSum(summaries: seq<BillSummary>): real
    decreases |summaries|
  {
    if summaries == [] then 0.0 else SubtotalSum(summaries[..|summaries| - 1]) + summaries[|summaries| - 1].subtotal
  }

  ghost function TaxSum(summaries: seq<BillSummary>): real
    decreases |summaries|
  {
    if summaries == [] then 0.0 else TaxSum(summaries[..|summaries| - 1]) + summaries[|summaries| - 1].tax
  }

  ghost function TipSum(summaries: seq<BillSummary>): real
    decreases |summaries|
  {
    if summaries == [] then 0.0 else TipSum(summaries[..|summaries| - 1]) + summaries[|summaries| - 1].tip
  }

  /** The prices of the items that have at least one assignee. */
  ghost function AssignedSubtotal(items: seq<ReceiptItem>): real
    decreases |items|
  {
    if items == [] then 0.0
    else
      var last := items[|items| - 1];
      AssignedSubtotal(items[..|items| - 1]) + (if |last.assignedTo| > 0 then last.price else 0.0)
  }

  /** Every item has at least one assignee: the guard of the step to the summary (App.tsx:236). */
  predicate AllAssigned(items: seq<ReceiptItem>)
  {
    forall i :: 0 <= i < |items| ==> |items[i].assignedTo| > 0
  }

  /**
   * Referential integrity of the assignment: no item lists a member twice, and every
   * listed id belongs to a live member.
   */
  predicate Referential(items: seq<ReceiptItem>, members: seq<Member>)
  {
    forall i :: 0 <= i < |items| ==>
      NoDup(items[i].assignedTo) && forall a :: a in items[i].assignedTo ==> a in Ids(members)
  }

  /** The items that list member `memberId`. */
  function Mentioning(items: seq<ReceiptItem>, memberId: string): seq<ReceiptItem>
  {
    Filter(items, (item: ReceiptItem) => memberId in item.assignedTo)
  }

  /** The sum, over the members, of their subtotals. */
  ghost function SharedSum(items: seq<ReceiptItem>, members: seq<Member>): real
    decreases |members|
  {
    if members == [] then 0.0
    else SharedSum(items, members[..|members| - 1]) + MemberSubtotal(items, members[|members| - 1].id)
  }

  /** The sum, over the members, of their shares of one item. */
  ghost function ItemShareSum(item: ReceiptItem, members: seq<Member>): real
    decreases |members|
  {
    if members == [] then 0.0
    else ItemShareSum(item, members[..|members| - 1]) + ItemShare(item, members[|members| - 1].id)
  }

  /** How many members have an id listed in `assignees`. */
  ghost function CountIn(members: seq<Member>, assignees: seq<string>): nat
    decreases |members|
  {
    if members == [] then 0
    else CountIn(members[..|members| - 1], assignees) + (if members[|members| - 1].id in assignees then 1 else 0)
  }

  // ---------------------------------------------------------------------------
  // The equal-split law.

  /** Only the items that list a member contribute to its subtotal; the others, unassigned ones included, add nothing. */
  lemma {:induction false} OnlyMentioningItemsCount(items: seq<ReceiptItem>, memberId: string)
    ensures MemberSubtotal(Mentioning(items, memberId), memberId) == MemberSubtotal(items, memberId)
    decreases |items|
  {
    if items != [] {
      var prefix, last := items[..|items| - 1], items[|items| - 1];
      OnlyMentioningItemsCount(prefix, memberId);
      var kept := Mentioning(prefix, memberId);
      assert Mentioning(items, memberId) == kept + (if memberId in last.assignedTo then [last] else []);
      if memberId in last.assignedTo {
        SubtotalSnoc(kept, last, memberId);
      } else {
        assert kept + [] == kept;
      }
    }
  }

  /** Adding an item adds exactly its share to a member's subtotal. */
  lemma SubtotalSnoc(items: seq<ReceiptItem>, item: ReceiptItem, memberId: string)
    ensures MemberSubtotal(items + [item], memberId) == MemberSubtotal(items, memberId) + ItemShare(item, memberId)
  {
    assert (items + [item])[..|items|] == items;
  }

  /** Adding an item to the bill adds, over all members, the sum of their shares of it. */
  lemma {:induction false} SharedSumSnoc(items: seq<ReceiptItem>, item: ReceiptItem, members: seq<Member>)
    ensures SharedSum(items + [item], members) == SharedSum(items, members) + ItemShareSum(item, members)
    decreases |members|
  {
    if members != [] {
      SharedSumSnoc(items, item, members[..|members| - 1]);
      SubtotalSnoc(items, item, members[|members| - 1].id);
    }
  }

  /** Each assignee of an item gets the same share `price / k`, so the members' shares total `count * price / k`. */
  lemma {:induction false} ItemShareSumCounts(item: ReceiptItem, members: seq<Member>)
    ensures |item.assignedTo| == 0 ==> ItemShareSum(item, members) == 0.0
    ensures |item.assignedTo| > 0 ==>
      ItemShareSum(item, members) == (CountIn(members, item.assignedTo) as real) * (item.price / (|item.assignedTo| as real))
    decreases |members|
  {
    if members != [] {
      ItemShareSumCounts(item, members[..|members| - 1]);
    }
  }

  /** The count depends only on which member ids are listed. */
  lemma {:induction false} CountInCongruent(members: seq<Member>, a: seq<string>, b: seq<string>)
    requires forall i :: 0 <= i < |members| ==> (members[i].id in a <==> members[i].id in b)
    ensures CountIn(members, a) == CountIn(members, b)
    decreases |members|
  {
    if members != [] {
      CountInCongruent(members[..|members| - 1], a, b);
    }
  }

  /** With distinct member ids, a duplicate-free list of live ids names exactly `|assignees|` members. */
  lemma {:induction false} CountAssignees(members: seq<Member>, assignees: seq<string>)
    requires DistinctIds(members) && NoDup(assignees)
    requires forall a :: a in assignees ==> a in Ids(members)
    ensures CountIn(members, assignees) == |assignees|
    decreases |members|
  {
    if members == [] {
      assert |assignees| > 0 ==> assignees[0] in Ids(members);
    } else {
      var prefix, last := members[..|members| - 1], members[|members| - 1];
      assert DistinctIds(prefix);
      assert forall i :: 0 <= i < |prefix| ==> prefix[i].id != last.id by {
        forall i | 0 <= i < |prefix| ensures prefix[i].id != last.id {
          assert members[i].id != members[|members| - 1].id;
        }
      }
      if last.id in assignees {
        var rest := Without(assignees, last.id);
        WithoutNoDup(assignees, last.id);
        WithoutLength(assignees, last.id);
        forall a | a in rest ensures a in Ids(prefix) {
          assert a in Ids(members) && a != last.id;
          var j :| 0 <= j < |members| && Ids(members)[j] == a;
          assert j < |prefix| && Ids(prefix)[j] == a;
        }
        CountAssignees(prefix, rest);
        CountInCongruent(prefix, assignees, rest);
      } else {
        forall a | a in assignees ensures a in Ids(prefix) {
          var j :| 0 <= j < |members| && Ids(members)[j] == a;
          assert j < |prefix| && Ids(prefix)[j] == a;
        }
        CountAssignees(prefix, assignees);
      }
    }
  }

  /** `k` equal shares of `price / k` make up `price`. */
  lemma EqualShares(k: nat, price: real)
    requires k > 0
    ensures (k as real) * (price / (k as real)) == price
  {
  }

  /** Equal-split law: an item shared by k distinct live members is paid for exactly once. */
  lemma ItemPaidOnce(item: ReceiptItem, members: seq<Member>)
    requires DistinctIds(members) && NoDup(item.assignedTo)
    requires forall a :: a in item.assignedTo ==> a in Ids(members)
    ensures ItemShareSum(item, members) == if |item.assignedTo| > 0 then item.price else 0.0
  {
    ItemShareSumCounts(item, members);
    if |item.assignedTo| > 0 {
      CountAssignees(members, item.assignedTo);
      EqualShares(|item.assignedTo|, item.price);
    }
  }

  // ---------------------------------------------------------------------------
  // Conservation.

  lemma SummariesSnoc(items: seq<ReceiptItem>, members: seq<Member>, totalTax: real, tipPercentage: real)
    requires members != []
    ensures Summaries(items, members, totalTax, tipPercentage)
      == Summaries(items, members[..|members| - 1], totalTax, tipPercentage)
         + [Summarize(items, members[|members| - 1], totalTax, tipPercentage)]
  {
  }

  /** The last summary is the last member's. */
  lemma LastSummary(items: seq<ReceiptItem>, members: seq<Member>, totalTax: real, tipPercentage: real)
    requires members != []
    ensures var ss := Summaries(items, members, totalTax, tipPercentage);
      && |ss| == |members|
      && ss[..|ss| - 1] == Summaries(items, members[..|members| - 1], totalTax, tipPercentage)
      && ss[|ss| - 1] == Summarize(items, members[|members| - 1], totalTax, tipPercentage)
  {
    SummariesSnoc(items, members, totalTax, tipPercentage);
  }

  /** The summaries' subtotals add up to the members' subtotals. */
  lemma {:induction false} SubtotalSumIsShared(items: seq<ReceiptItem>, members: seq<Member>, totalTax: real, tipPercentage: real)
    ensures SubtotalSum(Summaries(items, members, totalTax, tipPercentage)) == SharedSum(items, members)
    decreases |members|
  {
    if members != [] {
      var ss := Summaries(items, members, totalTax, tipPercentage);
      LastSummary(items, members, totalTax, tipPercentage);
      SubtotalSumIsShared(items, members[..|members| - 1], totalTax, tipPercentage);
      assert SubtotalSum(ss) == SubtotalSum(ss[..|ss| - 1]) + ss[|ss| - 1].subtotal;
    }
  }

  /** On a bill without items every member's subtotal is zero. */
  lemma {:induction false} SharedSumOfNoItems(members: seq<Member>)
    ensures SharedSum([], members) == 0.0
    decreases |members|
  {
    if members != [] {
      SharedSumOfNoItems(members[..|members| - 1]);
    }
  }

  /** Without stale or repeated assignees, the members' subtotals add up to the price of the assigned items. */
  lemma {:induction false} SharedSumIsAssigned(items: seq<ReceiptItem>, members: seq<Member>)
    requires DistinctIds(members) && Referential(items, members)
    ensures SharedSum(items, members) == AssignedSubtotal(items)
    decreases |items|
  {
    if items == [] {
      SharedSumOfNoItems(members);
    } else {
      var prefix, last := items[..|items| - 1], items[|items| - 1];
      assert Referential(prefix, members) by {
        forall i | 0 <= i < |prefix| ensures NoDup(prefix[i].assignedTo) && forall a :: a in prefix[i].assignedTo ==> a in Ids(members) {
          assert prefix[i] == items[i];
        }
      }
      SharedSumIsAssigned(prefix, members);
      assert items == prefix + [last];
      SharedSumSnoc(prefix, last, members);
      assert NoDup(last.assignedTo) && forall a :: a in last.assignedTo ==> a in Ids(members) by {
        assert last == items[|items| - 1];
      }
      ItemPaidOnce(last, members);
      assert AssignedSubtotal(items) == AssignedSubtotal(prefix) + (if |last.assignedTo| > 0 then last.price else 0.0);
    }
  }

  /** Subtotal conservation, the general form: unassigned items drop out, nothing else is lost or counted twice. */
  lemma SubtotalsConserved(items: seq<ReceiptItem>, members: seq<Member>, totalTax: real, tipPercentage: real)
    requires DistinctIds(members) && Referential(items, members)
    ensures SubtotalSum(Summaries(items, members, totalTax, tipPercentage)) == AssignedSubtotal(items)
  {
    SubtotalSumIsShared(items, members, totalTax, tipPercentage);
    SharedSumIsAssigned(items, members);
  }

  /** When every item is assigned, the assigned items are the whole bill. */
  lemma {:induction false} AllAssignedIsWholeBill(items: seq<ReceiptItem>)
    requires AllAssigned(items)
    ensures AssignedSubtotal(items) == BillSubtotal(items)
    decreases |items|
  {
    if items != [] {
      var prefix := items[..|items| - 1];
      assert AllAssigned(prefix) by {
        forall i | 0 <= i < |prefix| ensures |prefix[i].assignedTo| > 0 {
          assert prefix[i] == items[i];
        }
      }
      AllAssignedIsWholeBill(prefix);
      assert |items[|items| - 1].assignedTo| > 0;
    }
  }

  /** Sharing a sum in proportion: (a + b) / d * t splits into a / d * t + b / d * t. */
  lemma ProportionSplits(a: real, b: real, d: real, t: real)
    requires d > 0.0
    ensures ((a + b) / d) * t == (a / d) * t + (b / d) * t
  {
    assert (a + b) / d == a / d + b / d;
  }

  lemma PercentageSplits(a: real, b: real, p: real)
    ensures (a + b) * (p / 100.0) == a * (p / 100.0) + b * (p / 100.0)
  {
  }

  /** Tax shares proportional to the subtotals add up to the subtotals' part of the tax. */
  lemma {:induction false} TaxSumProportional(summaries: seq<BillSummary>, billSubtotal: real, totalTax: real)
    requires billSubtotal > 0.0
    requires forall i :: 0 <= i < |summaries| ==> summaries[i].tax == (summaries[i].subtotal / billSubtotal) * totalTax
    ensures TaxSum(summaries) == (SubtotalSum(summaries) / billSubtotal) * totalTax
    decreases |summaries|
  {
    if summaries != [] {
      var prefix, last := summaries[..|summaries| - 1], summaries[|summaries| - 1];
      TaxSumProportional(prefix, billSubtotal, totalTax);
      ProportionSplits(SubtotalSum(prefix), last.subtotal, billSubtotal, totalTax);
    }
  }

  /** Tips on the subtotals add up to the tip on their sum. */
  lemma {:induction false} TipSumProportional(summaries: seq<BillSummary>, tipPercentage: real)
    requires forall i :: 0 <= i < |summaries| ==> summaries[i].tip == summaries[i].subtotal * (tipPercentage / 100.0)
    ensures TipSum(summaries) == SubtotalSum(summaries) * (tipPercentage / 100.0)
    decreases |summaries|
  {
    if summaries != [] {
      var prefix, last := summaries[..|summaries| - 1], summaries[|summaries| - 1];
      TipSumProportional(prefix, tipPercentage);
      PercentageSplits(SubtotalSum(prefix), last.subtotal, tipPercentage);
    }
  }

  /** The grand total is the sum of the subtotals, the tax shares and the tips. */
  lemma {:induction false} GrandTotalSplits(summaries: seq<BillSummary>)
    requires forall i :: 0 <= i < |summaries| ==> summaries[i].total == summaries[i].subtotal + summaries[i].tax + summaries[i].tip
    ensures GrandTotal(summaries) == SubtotalSum(summaries) + TaxSum(summaries) + TipSum(summaries)
    decreases |summaries|
  {
    if summaries != [] {
      GrandTotalSplits(summaries[..|summaries| - 1]);
    }
  }

  lemma WholeShare(d: real, t: real)
    requires d > 0.0
    ensures (d / d) * t == t
  {
  }

  /** Each summary's tax, tip and total, as the engine defines them on a positive bill. */
  lemma SummaryFields(items: seq<ReceiptItem>, members: seq<Member>, totalTax: real, tipPercentage: real)
    requires BillSubtotal(items) > 0.0
    ensures var ss := Summaries(items, members, totalTax, tipPercentage);
      forall i :: 0 <= i < |ss| ==>
        && ss[i].tax == (ss[i].subtotal / BillSubtotal(items)) * totalTax
        && ss[i].tip == ss[i].subtotal * (tipPercentage / 100.0)
        && ss[i].total == ss[i].subtotal + ss[i].tax + ss[i].tip
  {
  }

  /** The whole tax is shared out when the subtotals add up to the bill subtotal. */
  lemma TaxConserved(items: seq<ReceiptItem>, members: seq<Member>, totalTax: real, tipPercentage: real)
    requires BillSubtotal(items) > 0.0
    requires SubtotalSum(Summaries(items, members, totalTax, tipPercentage)) == BillSubtotal(items)
    ensures TaxSum(Summaries(items, members, totalTax, tipPercentage)) == totalTax
  {
    var ss, b := Summaries(items, members, totalTax, tipPercentage), BillSubtotal(items);
    SummaryFields(items, members, totalTax, tipPercentage);
    TaxSumProportional(ss, b, totalTax);
    WholeShare(b, totalTax);
  }

  /** Each summary's tip and total, on any bill. */
  lemma SummaryTipAndTotal(items: seq<ReceiptItem>, members: seq<Member>, totalTax: real, tipPercentage: real)
    ensures var ss := Summaries(items, members, totalTax, tipPercentage);
      forall i :: 0 <= i < |ss| ==>
        ss[i].tip == ss[i].subtotal * (tipPercentage / 100.0) && ss[i].total == ss[i].subtotal + ss[i].tax + ss[i].tip
  {
  }

  /** Summaries whose tips and totals are formed per member add up as their parts do. */
  lemma SumsOfFormedSummaries(ss: seq<BillSummary>, tipPercentage: real)
    requires forall i :: 0 <= i < |ss| ==>
      ss[i].tip == ss[i].subtotal * (tipPercentage / 100.0) && ss[i].total == ss[i].subtotal + ss[i].tax + ss[i].tip
    ensures TipSum(ss) == SubtotalSum(ss) * (tipPercentage / 100.0)
    ensures GrandTotal(ss) == SubtotalSum(ss) + TaxSum(ss) + TipSum(ss)
  {
    TipSumProportional(ss, tipPercentage);
    GrandTotalSplits(ss);
  }

  /** On any bill, the tips add up to the tip on the summed subtotals, and the grand total to the three sums. */
  lemma TipsAndTotals(items: seq<ReceiptItem>, members: seq<Member>, totalTax: real, tipPercentage: real)
    ensures var ss := Summaries(items, members, totalTax, tipPercentage);
      && TipSum(ss) == SubtotalSum(ss) * (tipPercentage / 100.0)
      && GrandTotal(ss) == SubtotalSum(ss) + TaxSum(ss) + TipSum(ss)
  {
    SummaryTipAndTotal(items, members, totalTax, tipPercentage);
    SumsOfFormedSummaries(Summaries(items, members, totalTax, tipPercentage), tipPercentage);
  }

  /**
   * Money conservation: with distinct members, no stale or repeated assignees, every item
   * assigned and a positive bill subtotal, the subtotals add up to the bill subtotal, the
   * tax shares to the tax, the tips to the tip on the bill subtotal, and the grand total to
   * their sum.
   */
  lemma Conservation(items: seq<ReceiptItem>, members: seq<Member>, totalTax: real, tipPercentage: real)
    requires DistinctIds(members) && Referential(items, members) && AllAssigned(items)
    requires BillSubtotal(items) > 0.0
    ensures var ss := Summaries(items, members, totalTax, tipPercentage);
      && SubtotalSum(ss) == BillSubtotal(items)
      && TaxSum(ss) == totalTax
      && TipSum(ss) == BillSubtotal(items) * (tipPercentage / 100.0)
      && GrandTotal(ss) == BillSubtotal(items) + totalTax + BillSubtotal(items) * (tipPercentage / 100.0)
  {
    SubtotalsConserved(items, members, totalTax, tipPercentage);
    AllAssignedIsWholeBill(items);
    TaxConserved(items, members, totalTax, tipPercentage);
    TipsAndTotals(items, members, totalTax, tipPercentage);
  }

  // ---------------------------------------------------------------------------
  // The zero bill.

  /** Non-negative prices that sum to zero are all zero. */
  lemma {:induction false} ZeroSumMeansZeroPrices(items: seq<ReceiptItem>)
    requires forall i :: 0 <= i < |items| ==> items[i].price >= 0.0
    ensures BillSubtotal(items) >= 0.0
    ensures BillSubtotal(items) == 0.0 ==> forall i :: 0 <= i < |items| ==> items[i].price == 0.0
    decreases |items|
  {
    if items != [] {
      var prefix := items[..|items| - 1];
      assert forall i :: 0 <= i < |prefix| ==> prefix[i] == items[i];
      ZeroSumMeansZeroPrices(prefix);
    }
  }

  /** Zero prices give every member a zero subtotal. */
  lemma {:induction false} ZeroPricesZeroSubtotal(items: seq<ReceiptItem>, memberId: string)
    requires forall i :: 0 <= i < |items| ==> items[i].price == 0.0
    ensures MemberSubtotal(items, memberId) == 0.0
    decreases |items|
  {
    if items != [] {
      var prefix := items[..|items| - 1];
      assert forall i :: 0 <= i < |prefix| ==> prefix[i] == items[i];
      ZeroPricesZeroSubtotal(prefix, memberId);
    }
  }

  /** With non-negative prices and a zero bill subtotal, every field of every summary is zero. */
  lemma ZeroBill(items: seq<ReceiptItem>, members: seq<Member>, totalTax: real, tipPercentage: real)
    requires forall i :: 0 <= i < |items| ==> items[i].price >= 0.0
    requires BillSubtotal(items) == 0.0
    ensures var ss := Summaries(items, members, totalTax, tipPercentage);
      forall i :: 0 <= i < |ss| ==>
        ss[i].subtotal == 0.0 && ss[i].tax == 0.0 && ss[i].tip == 0.0 && ss[i].total == 0.0
  {
    ZeroSumMeansZeroPrices(items);
    forall m | m in members ensures MemberSubtotal(items, m.id) == 0.0 {
      ZeroPricesZeroSubtotal(items, m.id);
    }
  }
}
