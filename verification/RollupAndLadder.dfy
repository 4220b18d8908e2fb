/** The two pure decisions of the pipeline: when a request may settle, and which attempt follows a failed QC. */
module RollupAndLadder {
  import opened Base
  import opened GenerationRows

  // ---------------------------------------------------------------- attempts of one slot

  function SlotItems(rows: seq<Item>, slot: Slot): seq<Item> {
    if rows == [] then []
    else
      var last := rows[|rows| - 1];
      SlotItems(rows[..|rows| - 1], slot) + (if last.lineage.slot == slot then [last] else [])
  }

  lemma {:induction false} InSlotItems(rows: seq<Item>, slot: Slot, x: Item)
    ensures x in SlotItems(rows, slot) <==> x in rows && x.lineage.slot == slot
  {
    if rows != [] {
      InSlotItems(rows[..|rows| - 1], slot, x);
      assert rows == rows[..|rows| - 1] + [rows[|rows| - 1]];
    }
  }

  /** Python's max by attempt number: the first item that no other beats. */
  function Latest(items: seq<Item>): (latest: Item)
    requires items != []
    ensures latest in items
    ensures forall x | x in items :: x.lineage.attempt <= latest.lineage.attempt
  {
    if |items| == 1 then items[0]
    else
      var last := items[|items| - 1];
      var before := Latest(items[..|items| - 1]);
      assert items == items[..|items| - 1] + [last];
      if last.lineage.attempt > before.lineage.attempt then last else before
  }

  /** Item i has the highest attempt number, and is the first that has. */
  predicate IsLatest(items: seq<Item>, i: nat) {
    && i < |items| && (forall j | 0 <= j < |items| :: items[j].lineage.attempt <= items[i].lineage.attempt)
    && (forall j | 0 <= j < i :: items[j].lineage.attempt < items[i].lineage.attempt)
  }

  lemma {:induction false} LatestMeans(items: seq<Item>) returns (i: nat)
    requires items != []
    ensures IsLatest(items, i) && items[i] == Latest(items)
  {
    i := 0;
    if |items| > 1 {
      var n := |items| - 1;
      i := LatestMeans(items[..n]);
      assert items[..n][i] == items[i];
      if items[n].lineage.attempt > items[i].lineage.attempt { i := n; }
    }
  }

  // ---------------------------------------------------------------- the rollup

  datatype Verdict = Good | Bad | Open

  function AttemptsVerdict(items: seq<Item>): Verdict {
    if exists x | x in items :: x.status == Succeeded then Good
    else if items == [] then Bad
    else if Latest(items).status == Dead then Bad
    else Open
  }

  function SlotVerdict(rows: seq<Item>, slot: Slot): Verdict { AttemptsVerdict(SlotItems(rows, slot)) }

  function Count(required: seq<Slot>, rows: seq<Item>, v: Verdict): (n: nat)
    ensures n <= |required|
  {
    if required == [] then 0
    else
      Count(required[..|required| - 1], rows, v) + (if SlotVerdict(rows, required[|required| - 1]) == v then 1 else 0)
  }

  datatype Rollup = Rollup(status: Option<RequestStatus>, succeeded: nat, failed: nat)

  const NOT_READY := Rollup(None, 0, 0)

  /** The verdict once every slot is decided. */
  function Settled(succeeded: nat, failed: nat): Rollup {
    Rollup(Some(if failed == 0 then AllSucceeded else if succeeded == 0 then AllFailed else PartiallyFailed), succeeded, failed)
  }

  /** No verdict while there is nothing to roll up or some required slot is open. */
  function RollupOf(required: seq<Slot>, rows: seq<Item>): Rollup {
    if required == [] || exists slot | slot in required :: SlotVerdict(rows, slot) == Open then NOT_READY
    else Settled(Count(required, rows, Good), Count(required, rows, Bad))
  }

  /** A verdict accounts for every required slot exactly once. */
  lemma {:induction false} VerdictsAddUp(required: seq<Slot>, rows: seq<Item>)
    requires forall slot | slot in required :: SlotVerdict(rows, slot) != Open
    ensures Count(required, rows, Good) + Count(required, rows, Bad) == |required|
  {
    if required != [] {
      assert required[|required| - 1] in required;
      VerdictsAddUp(required[..|required| - 1], rows);
    }
  }

  lemma RollupAccountsForEverySlot(required: seq<Slot>, rows: seq<Item>)
    ensures var r := RollupOf(required, rows);
            && (r.status.Some? ==> r.succeeded + r.failed == |required| && |required| > 0)
            && (r.status == Some(AllSucceeded) <==> r.status.Some? && r.failed == 0)
            && (r.status == Some(AllFailed) <==> r.status.Some? && r.succeeded == 0)
            && (r.status == None ==> r == NOT_READY)
  {
    if RollupOf(required, rows).status.Some? { VerdictsAddUp(required, rows); }
  }

  /** The places of the required list whose slot has the verdict. */
  function Places(required: seq<Slot>, rows: seq<Item>, v: Verdict): (places: set<nat>)
    ensures forall i: nat :: i in places <==> i < |required| && SlotVerdict(rows, required[i]) == v
  {
    if required == [] then {}
    else
      var n := |required| - 1;
      Places(required[..n], rows, v) + (if SlotVerdict(rows, required[n]) == v then {n} else {})
  }

  lemma {:induction false} CountIsNumber(required: seq<Slot>, rows: seq<Item>, v: Verdict)
    ensures Count(required, rows, v) == |Places(required, rows, v)|
  {
    if required != [] { CountIsNumber(required[..|required| - 1], rows, v); }
  }

  lemma NoneCounted(required: seq<Slot>, rows: seq<Item>, v: Verdict)
    ensures Count(required, rows, v) == 0 <==> forall slot | slot in required :: SlotVerdict(rows, slot) != v
  {
    CountIsNumber(required, rows, v);
    var places := Places(required, rows, v);
    if i: nat :| i < |required| && SlotVerdict(rows, required[i]) == v { assert i in places; }
    if i :| i in places { assert required[i] in required; }
  }

  /** A rollup waits for open slots; its status then says whether all, some or none of the slots are good. */
  lemma RollupReadsVerdicts(required: seq<Slot>, rows: seq<Item>)
    ensures var status := RollupOf(required, rows).status;
            && (status == None <==> required == [] || exists slot :: slot in required && SlotVerdict(rows, slot) == Open)
            && (status == Some(AllSucceeded) <==> required != [] && forall slot | slot in required :: SlotVerdict(rows, slot) == Good)
            && (status == Some(AllFailed) <==> required != [] && forall slot | slot in required :: SlotVerdict(rows, slot) == Bad)
  {
    NoneCounted(required, rows, Good);
    NoneCounted(required, rows, Bad);
    if required != [] { assert required[0] in required; }
  }

  /** Its counts are the numbers of good and bad slots. */
  lemma RollupCountsVerdicts(required: seq<Slot>, rows: seq<Item>)
    requires RollupOf(required, rows).status.Some?
    ensures RollupOf(required, rows).succeeded == |Places(required, rows, Good)|
    ensures RollupOf(required, rows).failed == |Places(required, rows, Bad)|
  {
    CountIsNumber(required, rows, Good);
    CountIsNumber(required, rows, Bad);
  }

  /** Rollups depend on nothing but the verdicts of the required slots. */
  lemma {:induction false} CountCongruent(required: seq<Slot>, rows: seq<Item>, rows': seq<Item>, v: Verdict)
    requires forall slot | slot in required :: SlotVerdict(rows, slot) == SlotVerdict(rows', slot)
    ensures Count(required, rows, v) == Count(required, rows', v)
  {
    if required != [] {
      assert required[|required| - 1] in required;
      CountCongruent(required[..|required| - 1], rows, rows', v);
    }
  }

  lemma RollupCongruent(required: seq<Slot>, rows: seq<Item>, rows': seq<Item>)
    requires forall slot | slot in required :: SlotVerdict(rows, slot) == SlotVerdict(rows', slot)
    ensures RollupOf(required, rows) == RollupOf(required, rows')
  {
    CountCongruent(required, rows, rows', Good);
    CountCongruent(required, rows, rows', Bad);
  }

  lemma {:induction false} SlotItemsOtherSlot(rows: seq<Item>, last: Item, slot: Slot)
    ensures SlotItems(rows + [last], slot) == SlotItems(rows, slot) + (if last.lineage.slot == slot then [last] else [])
  {
    assert (rows + [last])[..|rows|] == rows;
  }

  predicate Groups(bySlot: map<Slot, seq<Item>>, slot: Slot, items: seq<Item>) {
    (if slot in bySlot then bySlot[slot] else []) == SlotItems(items, slot)
  }

  function Add(bySlot: map<Slot, seq<Item>>, x: Item): map<Slot, seq<Item>> {
    var slot := x.lineage.slot;
    bySlot[slot := (if slot in bySlot then bySlot[slot] else []) + [x]]
  }

  lemma AddKeepsGroups(bySlot: map<Slot, seq<Item>>, slot: Slot, items: seq<Item>, last: Item)
    requires Groups(bySlot, slot, items)
    ensures Groups(Add(bySlot, last), slot, items + [last])
  {
    SlotItemsOtherSlot(items, last, slot);
  }

  method GroupBySlot(items: seq<Item>) returns (bySlot: map<Slot, seq<Item>>)
    ensures forall slot :: Groups(bySlot, slot, items)
  {
    bySlot := map[];
    for i := 0 to |items|
      invariant forall slot :: Groups(bySlot, slot, items[..i])
    {
      var seen := items[..i];
      forall slot ensures Groups(Add(bySlot, items[i]), slot, seen + [items[i]]) {
        AddKeepsGroups(bySlot, slot, seen, items[i]);
      }
      bySlot := Add(bySlot, items[i]);
      assert items[..i + 1] == seen + [items[i]];
    }
    assert items[..|items|] == items;
  }

  lemma CountExtends(required: seq<Slot>, i: nat, rows: seq<Item>, v: Verdict)
    requires i < |required|
    ensures Count(required[..i + 1], rows, v)
         == Count(required[..i], rows, v) + (if SlotVerdict(rows, required[i]) == v then 1 else 0)
  {
    assert required[..i + 1][..i] == required[..i];
  }

  /** One slot's attempts: any success, none at all, or a latest one that is dead, decides it. */
  method JudgeSlot(slotItems: seq<Item>) returns (v: Verdict)
    ensures v == AttemptsVerdict(slotItems)
    ensures v == Good <==> exists i :: 0 <= i < |slotItems| && slotItems[i].status == Succeeded
    ensures v == Bad <==> && (forall i | 0 <= i < |slotItems| :: slotItems[i].status != Succeeded)
                          && (slotItems == [] || exists i: nat :: IsLatest(slotItems, i) && slotItems[i].status == Dead)
  {
    if slotItems != [] { ghost var i := LatestMeans(slotItems); }
    if exists x | x in slotItems :: x.status == Succeeded { return Good; }
    if slotItems == [] { return Bad; }
    var latest := Latest(slotItems);
    if latest.status == Dead { return Bad; }
    return Open;
  }

  /** The first i slots are judged: none is open, and the counts are theirs. */
  predicate Judged(required: seq<Slot>, items: seq<Item>, i: nat, succeeded: nat, failed: nat)
    requires i <= |required|
  {
    && succeeded == Count(required[..i], items, Good) && failed == Count(required[..i], items, Bad)
    && forall slot | slot in required[..i] :: SlotVerdict(items, slot) != Open
  }

  lemma JudgeOneMore(required: seq<Slot>, items: seq<Item>, i: nat, succeeded: nat, failed: nat)
    requires i < |required| && Judged(required, items, i, succeeded, failed) && SlotVerdict(items, required[i]) != Open
    ensures if SlotVerdict(items, required[i]) == Good then Judged(required, items, i + 1, succeeded + 1, failed)
            else Judged(required, items, i + 1, succeeded, failed + 1)
  {
    CountExtends(required, i, items, Good);
    CountExtends(required, i, items, Bad);
    forall slot | slot in required[..i + 1] ensures slot == required[i] || slot in required[..i] {
      assert required[..i + 1] == required[..i] + [required[i]];
    }
  }

  lemma AllJudged(required: seq<Slot>, items: seq<Item>, succeeded: nat, failed: nat)
    requires required != [] && Judged(required, items, |required|, succeeded, failed)
    ensures RollupOf(required, items) == Settled(succeeded, failed)
  {
    assert required[..|required|] == required;
  }

  lemma OpenDecides(required: seq<Slot>, items: seq<Item>, slot: Slot)
    requires slot in required && SlotVerdict(items, slot) == Open
    ensures RollupOf(required, items) == NOT_READY
  {}

  /** `compute_rollup`: group the items by slot, then count slot by slot, leaving at the first open one. */
  method ComputeRollup(required: seq<Slot>, items: seq<Item>) returns (r: Rollup)
    ensures r == RollupOf(required, items)
  {
    if required == [] { return NOT_READY; }
    var bySlot := GroupBySlot(items);
    var succeeded, failed := 0, 0;
    for i := 0 to |required|
      invariant Judged(required, items, i, succeeded, failed)
    {
      var slot := required[i];
      assert Groups(bySlot, slot, items);
      var v := JudgeSlot(if slot in bySlot then bySlot[slot] else []);
      if v == Open {
        OpenDecides(required, items, slot);
        return NOT_READY;
      }
      JudgeOneMore(required, items, i, succeeded, failed);
      if v == Good { succeeded := succeeded + 1; } else { failed := failed + 1; }
    }
    AllJudged(required, items, succeeded, failed);
    r := Settled(succeeded, failed);
  }

  // ---------------------------------------------------------------- the QC retry ladder

  datatype Template = Template(id: Id, analysed: bool)

  datatype Rung = Rung(attempt: nat, template: Id, reusePrompt: bool)

  /** The first analysed template other than the given one. */
  function FirstAlternate(templates: seq<Template>, current: Id): (t: Option<Id>)
    ensures t.Some? ==> exists i :: 0 <= i < |templates| && templates[i].analysed && templates[i].id == t.value != current
                                    && forall j | 0 <= j < i :: templates[j].id == current || !templates[j].analysed
    ensures t.None? <==> forall x | x in templates :: x.analysed ==> x.id == current
  {
    var first := First(templates, (x: Template) => x.id != current && x.analysed);
    if first.None? then None else Some(first.value.id)
  }

  function NextRung(attempts: seq<Item>, templates: seq<Template>): Option<Rung>
    requires attempts != []
  {
    var latest := Latest(attempts).lineage;
    if latest.attempt == 1 then Some(Rung(2, latest.template, true))
    else if latest.attempt == 2 then
      var alternate := FirstAlternate(templates, latest.template);
      if alternate.None? then None else Some(Rung(3, alternate.value, false))
    else None
  }
}
