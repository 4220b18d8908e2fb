/** The parts of a published spec snapshot that prompt composition and fan-out read. */
module SpecDocument {
  import opened Base

  datatype InputSlot = InputSlot(id: string, key: string, name: string, description: Option<string>)

  datatype Requirement = Requirement(slot: string, role: string, position: int, required: bool)

  datatype CatalogSlot = CatalogSlot(id: string, requirements: seq<Requirement>)

  datatype SpecDoc = SpecDoc(attributes: seq<string>, axes: seq<string>, inputSlots: seq<InputSlot>, catalogSlots: seq<CatalogSlot>)

  /** `find_catalog_slot`: the first slot of that id. */
  function FindCatalogSlot(slots: seq<CatalogSlot>, id: string): (r: Option<CatalogSlot>)
    ensures r.Some? ==> exists i :: 0 <= i < |slots| && slots[i] == r.value && slots[i].id == id && forall j | 0 <= j < i :: slots[j].id != id
    ensures r.None? <==> forall slot | slot in slots :: slot.id != id
  {
    First(slots, (slot: CatalogSlot) => slot.id == id)
  }

  /** The dictionary of input slots by id; of two slots with one id the later counts. */
  function SlotsById(slots: seq<InputSlot>): (m: map<string, InputSlot>)
    ensures forall id | id in m :: m[id].id == id
  {
    if slots == [] then map[]
    else
      var last := slots[|slots| - 1];
      SlotsById(slots[..|slots| - 1])[last.id := last]
  }

  predicate IsLastSlot(slots: seq<InputSlot>, k: nat, id: string) {
    k < |slots| && slots[k].id == id && forall j | k < j < |slots| :: slots[j].id != id
  }

  lemma {:induction false} LastSlotCounts(slots: seq<InputSlot>, k: nat, id: string)
    requires IsLastSlot(slots, k, id)
    ensures id in SlotsById(slots) && SlotsById(slots)[id] == slots[k]
  {
    var n := |slots| - 1;
    if k < n {
      assert IsLastSlot(slots[..n], k, id);
      LastSlotCounts(slots[..n], k, id);
    }
  }

  lemma {:induction false} SlotOfId(slots: seq<InputSlot>, id: string) returns (k: nat)
    requires id in SlotsById(slots)
    ensures IsLastSlot(slots, k, id) && slots[k] == SlotsById(slots)[id]
  {
    var n := |slots| - 1;
    k := n;
    if slots[n].id != id { k := SlotOfId(slots[..n], id); }
  }
}
