/** The reference images of a generation attempt and the lines of the prompt that describe them. Three pieces of
    code walk a catalog slot's input requirements: the snapshot sorts them once, fan-out attaches images in that
    stored order, and the renderer sorts again. The i-th line has to describe the i-th image. */
module RoleLines {
  import opened Base
  import opened SpecDocument

  // ---------------------------------------------------------------- a stable sort by prompt position

  predicate InOrder(xs: seq<Requirement>) { forall i, j | 0 <= i < j < |xs| :: xs[i].position <= xs[j].position }

  function InsertLast(xs: seq<Requirement>, r: Requirement): seq<Requirement> {
    if xs != [] && xs[|xs| - 1].position > r.position then InsertLast(xs[..|xs| - 1], r) + [xs[|xs| - 1]] else xs + [r]
  }

  /** Python's `sorted(..., key=prompt_position)`. */
  function SortByPosition(xs: seq<Requirement>): seq<Requirement> {
    if xs == [] then [] else InsertLast(SortByPosition(xs[..|xs| - 1]), xs[|xs| - 1])
  }

  /** The requirements of one position, in order. */
  function AtPosition(xs: seq<Requirement>, p: int): seq<Requirement> {
    if xs == [] then []
    else
      var last := xs[|xs| - 1];
      AtPosition(xs[..|xs| - 1], p) + (if last.position == p then [last] else [])
  }

  lemma {:induction false} InsertKeepsOrder(xs: seq<Requirement>, r: Requirement)
    requires InOrder(xs)
    ensures InOrder(InsertLast(xs, r)) && |InsertLast(xs, r)| == |xs| + 1
    ensures forall x | x in InsertLast(xs, r) :: x == r || x in xs
  {
    if xs != [] && xs[|xs| - 1].position > r.position {
      var before, last := xs[..|xs| - 1], xs[|xs| - 1];
      InsertKeepsOrder(before, r);
      var ys := InsertLast(before, r);
      assert xs == before + [last];
      forall i | 0 <= i < |ys| ensures ys[i].position <= last.position {
        assert ys[i] in ys;
        if ys[i] != r { var k :| 0 <= k < |before| && before[k] == ys[i]; assert xs[k] == ys[i]; }
      }
    }
  }

  lemma AtPositionSnoc(xs: seq<Requirement>, r: Requirement, p: int)
    ensures AtPosition(xs + [r], p) == AtPosition(xs, p) + (if r.position == p then [r] else [])
  {
    assert (xs + [r])[..|xs|] == xs;
  }

  lemma {:induction false} InsertIsStable(xs: seq<Requirement>, r: Requirement, p: int)
    requires InOrder(xs)
    ensures AtPosition(InsertLast(xs, r), p) == AtPosition(xs, p) + (if r.position == p then [r] else [])
  {
    AtPositionSnoc(xs, r, p);
    if xs != [] && xs[|xs| - 1].position > r.position {
      var before, last := xs[..|xs| - 1], xs[|xs| - 1];
      InsertIsStable(before, r, p);
      AtPositionSnoc(InsertLast(before, r), last, p);
      if last.position == p { NoneBelow(before, r, p); }
    }
  }

  lemma NoneBelow(xs: seq<Requirement>, r: Requirement, p: int)
    requires r.position < p
    ensures AtPosition(xs + [r], p) == AtPosition(xs, p)
  {
    AtPositionSnoc(xs, r, p);
  }

  /** The sort orders by position and keeps, position by position, exactly the rows and the order it was given. */
  lemma {:induction false} SortIsStable(xs: seq<Requirement>, p: int)
    ensures InOrder(SortByPosition(xs)) && |SortByPosition(xs)| == |xs|
    ensures AtPosition(SortByPosition(xs), p) == AtPosition(xs, p)
  {
    if xs != [] {
      SortIsStable(xs[..|xs| - 1], p);
      InsertKeepsOrder(SortByPosition(xs[..|xs| - 1]), xs[|xs| - 1]);
      InsertIsStable(SortByPosition(xs[..|xs| - 1]), xs[|xs| - 1], p);
    }
  }

  lemma InsertAtEnd(xs: seq<Requirement>, r: Requirement)
    requires xs != [] ==> xs[|xs| - 1].position <= r.position
    ensures InsertLast(xs, r) == xs + [r]
  {}

  /** Sorting what is in order changes nothing: the renderer's second sort is harmless. */
  lemma {:induction false} SortedStays(xs: seq<Requirement>)
    requires InOrder(xs)
    ensures SortByPosition(xs) == xs
  {
    if xs != [] {
      var before, last := xs[..|xs| - 1], xs[|xs| - 1];
      SortedStays(before);
      assert before != [] ==> xs[|xs| - 2].position <= last.position;
      InsertAtEnd(before, last);
      assert xs == before + [last];
    }
  }

  // ---------------------------------------------------------------- the lines

  function LineOf(r: Requirement, slot: InputSlot): string {
    r.role + ": " + (if slot.description.Some? && slot.description.value != "" then slot.description.value else slot.name)
  }

  /** A line: the role, a colon, and what the slot shows, its description or for want of one its name. */
  predicate IsLine(line: string, r: Requirement, slot: InputSlot) {
    && r.role + ": " <= line
    && line[|r.role| + 2..] == match slot.description
                               case Some(text) => if text == "" then slot.name else text
                               case None => slot.name
  }

  lemma LineIsSpelled(r: Requirement, slot: InputSlot)
    ensures IsLine(LineOf(r, slot), r, slot)
  {}

  function LinesOf(reqs: seq<Requirement>, slots: map<string, InputSlot>): seq<string> {
    if reqs == [] then []
    else
      var last := reqs[|reqs| - 1];
      LinesOf(reqs[..|reqs| - 1], slots) + (if last.slot in slots then [LineOf(last, slots[last.slot])] else [])
  }

  function RoleLinesOf(doc: SpecDoc, slotId: string): seq<string> {
    match FindCatalogSlot(doc.catalogSlots, slotId)
    case None => []
    case Some(slot) => LinesOf(SortByPosition(slot.requirements), SlotsById(doc.inputSlots))
  }

  /** `render_role_lines`: a requirement whose slot the snapshot does not hold is passed over. */
  method RenderRoleLines(doc: SpecDoc, slotId: string) returns (lines: seq<string>)
    ensures lines == RoleLinesOf(doc, slotId)
  {
    lines := [];
    var catalogSlot := FindCatalogSlot(doc.catalogSlots, slotId);
    if catalogSlot.None? { return; }
    var slotsById := SlotsById(doc.inputSlots);
    var requirements := SortByPosition(catalogSlot.value.requirements);
    for i := 0 to |requirements|
      invariant lines == LinesOf(requirements[..i], slotsById)
    {
      assert requirements[..i + 1][..i] == requirements[..i];
      var r := requirements[i];
      if r.slot in slotsById { lines := lines + [LineOf(r, slotsById[r.slot])]; }
    }
    assert requirements[..|requirements|] == requirements;
  }

  // ---------------------------------------------------------------- the images

  datatype InputImage = InputImage(variant: Option<nat>, slot: string, asset: nat)

  predicate IsMatch(image: InputImage, variant: Option<nat>, slot: string) { image.variant == variant && image.slot == slot }

  /** `resolve_input_image`: the first of the variant's own images, or else the first of the product's. */
  function ResolveInputImage(images: seq<InputImage>, variant: Option<nat>, slot: string): (r: Option<InputImage>)
    ensures r.Some? ==> r.value.variant in {variant, None} && r.value.slot == slot
    ensures r.Some? ==> exists i :: 0 <= i < |images| && images[i] == r.value
                                    && forall j | 0 <= j < i :: !IsMatch(images[j], r.value.variant, slot)
    ensures r.Some? && r.value.variant != variant ==> forall image | image in images :: !IsMatch(image, variant, slot)
    ensures r.None? <==> forall image | image in images :: !IsMatch(image, variant, slot) && !IsMatch(image, None, slot)
  {
    var own := if variant.Some? then First(images, (image: InputImage) => IsMatch(image, variant, slot)) else None;
    if own.Some? then own else First(images, (image: InputImage) => IsMatch(image, None, slot))
  }

  function AssetFor(r: Requirement, images: seq<InputImage>, variant: Option<nat>): Option<nat> {
    var image := ResolveInputImage(images, variant, r.slot);
    if image.Some? then Some(image.value.asset) else None
  }

  predicate Resolves(r: Requirement, images: seq<InputImage>, variant: Option<nat>) {
    ResolveInputImage(images, variant, r.slot).Some?
  }

  predicate Blocks(r: Requirement, images: seq<InputImage>, variant: Option<nat>) {
    r.required && !Resolves(r, images, variant)
  }

  /** A required input that neither the variant nor the product has an image for. */
  predicate NeverCaptured(r: Requirement, images: seq<InputImage>, variant: nat) {
    r.required && forall image | image in images && image.slot == r.slot :: image.variant != Some(variant) && image.variant != None
  }

  lemma BlocksMeans(r: Requirement, images: seq<InputImage>, variant: nat)
    ensures Blocks(r, images, Some(variant)) <==> NeverCaptured(r, images, variant)
  {}

  function AssetsOf(reqs: seq<Requirement>, images: seq<InputImage>, variant: Option<nat>): seq<nat> {
    if reqs == [] then []
    else
      var image := ResolveInputImage(images, variant, reqs[|reqs| - 1].slot);
      AssetsOf(reqs[..|reqs| - 1], images, variant) + (if image.Some? then [image.value.asset] else [])
  }

  /** `_resolve_required_inputs`: refused exactly when a required input was never captured. */
  method ResolveRequiredInputs(slot: CatalogSlot, images: seq<InputImage>, variant: nat) returns (r: Outcome<seq<nat>>)
    ensures r.Err? <==> exists req | req in slot.requirements :: Blocks(req, images, Some(variant))
    ensures r.Err? <==> exists req :: req in slot.requirements && NeverCaptured(req, images, variant)
    ensures r.Err? ==> r.error == Validation
    ensures r.Ok? ==> r.result == AssetsOf(slot.requirements, images, Some(variant))
  {
    forall req ensures Blocks(req, images, Some(variant)) <==> NeverCaptured(req, images, variant) { BlocksMeans(req, images, variant); }
    var assets: seq<nat> := [];
    for i := 0 to |slot.requirements|
      invariant assets == AssetsOf(slot.requirements[..i], images, Some(variant))
      invariant forall k | 0 <= k < i :: !Blocks(slot.requirements[k], images, Some(variant))
    {
      assert slot.requirements[..i + 1][..i] == slot.requirements[..i];
      var requirement := slot.requirements[i];
      var image := ResolveInputImage(images, Some(variant), requirement.slot);
      if image.None? {
        if requirement.required {
          assert Blocks(requirement, images, Some(variant));
          return Err(Validation);
        }
      } else {
        assets := assets + [image.value.asset];
      }
    }
    assert slot.requirements[..|slot.requirements|] == slot.requirements;
    return Ok(assets);
  }

  // ---------------------------------------------------------------- lines against images

  /** The requirements that got a line, in the order of the lines. */
  function Described(reqs: seq<Requirement>, slots: map<string, InputSlot>): seq<Requirement> {
    if reqs == [] then []
    else Described(reqs[..|reqs| - 1], slots) + (if reqs[|reqs| - 1].slot in slots then [reqs[|reqs| - 1]] else [])
  }

  /** The requirements that got an image, in the order of the images. */
  function Attached(reqs: seq<Requirement>, images: seq<InputImage>, variant: Option<nat>): seq<Requirement> {
    if reqs == [] then []
    else Attached(reqs[..|reqs| - 1], images, variant) + (if Resolves(reqs[|reqs| - 1], images, variant) then [reqs[|reqs| - 1]] else [])
  }

  lemma {:induction false} LinesAreOfDescribed(reqs: seq<Requirement>, slots: map<string, InputSlot>)
    ensures |LinesOf(reqs, slots)| == |Described(reqs, slots)|
    ensures forall i | 0 <= i < |Described(reqs, slots)| ::
              Described(reqs, slots)[i].slot in slots
              && LinesOf(reqs, slots)[i] == LineOf(Described(reqs, slots)[i], slots[Described(reqs, slots)[i].slot])
    ensures forall r :: r in Described(reqs, slots) <==> r in reqs && r.slot in slots
  {
    if reqs != [] {
      LinesAreOfDescribed(reqs[..|reqs| - 1], slots);
      assert reqs == reqs[..|reqs| - 1] + [reqs[|reqs| - 1]];
    }
  }

  lemma {:induction false} DescribedInOrder(reqs: seq<Requirement>, slots: map<string, InputSlot>)
    requires InOrder(reqs)
    ensures InOrder(Described(reqs, slots))
  {
    if reqs != [] {
      var before, last := reqs[..|reqs| - 1], reqs[|reqs| - 1];
      DescribedInOrder(before, slots);
      LinesAreOfDescribed(before, slots);
      forall i | 0 <= i < |Described(before, slots)| ensures Described(before, slots)[i].position <= last.position {
        assert Described(before, slots)[i] in before;
      }
    }
  }

  /** The role lines of a slot: one for every requirement that the snapshot describes, in prompt order, each spelled. */
  lemma RoleLinesMean(doc: SpecDoc, slotId: string) returns (described: seq<Requirement>)
    ensures |RoleLinesOf(doc, slotId)| == |described| && InOrder(described)
    ensures forall i | 0 <= i < |described| ::
              && described[i].slot in SlotsById(doc.inputSlots)
              && IsLine(RoleLinesOf(doc, slotId)[i], described[i], SlotsById(doc.inputSlots)[described[i].slot])
    ensures match FindCatalogSlot(doc.catalogSlots, slotId)
            case None => described == []
            case Some(slot) => forall r :: r in described <==> r in SortByPosition(slot.requirements) && r.slot in SlotsById(doc.inputSlots)
  {
    described := [];
    var slot := FindCatalogSlot(doc.catalogSlots, slotId);
    if slot.Some? {
      var reqs, slots := SortByPosition(slot.value.requirements), SlotsById(doc.inputSlots);
      described := Described(reqs, slots);
      LinesAreOfDescribed(reqs, slots);
      SortIsStable(slot.value.requirements, 0);
      DescribedInOrder(reqs, slots);
      forall i | 0 <= i < |described| ensures IsLine(RoleLinesOf(doc, slotId)[i], described[i], slots[described[i].slot]) {
        LineIsSpelled(described[i], slots[described[i].slot]);
      }
    }
  }

  lemma {:induction false} AssetsAreOfAttached(reqs: seq<Requirement>, images: seq<InputImage>, variant: Option<nat>)
    ensures |AssetsOf(reqs, images, variant)| == |Attached(reqs, images, variant)|
    ensures forall i | 0 <= i < |Attached(reqs, images, variant)| ::
              && AssetFor(Attached(reqs, images, variant)[i], images, variant) == Some(AssetsOf(reqs, images, variant)[i])
              && var image := ResolveInputImage(images, variant, Attached(reqs, images, variant)[i].slot);
                 image.Some? && image.value.asset == AssetsOf(reqs, images, variant)[i]
    ensures forall r :: r in Attached(reqs, images, variant) <==> r in reqs && Resolves(r, images, variant)
  {
    if reqs != [] {
      AssetsAreOfAttached(reqs[..|reqs| - 1], images, variant);
      assert reqs == reqs[..|reqs| - 1] + [reqs[|reqs| - 1]];
    }
  }

  lemma {:induction false} SameFilter(reqs: seq<Requirement>, slots: map<string, InputSlot>, images: seq<InputImage>, variant: Option<nat>)
    requires forall r | r in reqs :: r.slot in slots <==> Resolves(r, images, variant)
    ensures Described(reqs, slots) == Attached(reqs, images, variant)
  {
    if reqs != [] {
      assert reqs[|reqs| - 1] in reqs;
      SameFilter(reqs[..|reqs| - 1], slots, images, variant);
    }
  }

  /** A published snapshot stores each slot's requirements in prompt order. There, lines and images speak of the
      same requirements one by one exactly when every requirement with a described slot has an image and every
      one with an image has a described slot. An optional input without an image breaks it: it still gets a
      line, and every later line then stands against the wrong image. */
  lemma LinesMatchImagesIff(doc: SpecDoc, slot: CatalogSlot, images: seq<InputImage>, variant: Option<nat>)
    requires InOrder(slot.requirements)
    ensures Described(SortByPosition(slot.requirements), SlotsById(doc.inputSlots)) == Attached(slot.requirements, images, variant)
            <==> forall r | r in slot.requirements :: r.slot in SlotsById(doc.inputSlots) <==> Resolves(r, images, variant)
  {
    var reqs, slots := slot.requirements, SlotsById(doc.inputSlots);
    SortedStays(reqs);
    LinesAreOfDescribed(reqs, slots);
    AssetsAreOfAttached(reqs, images, variant);
    if forall r | r in reqs :: r.slot in slots <==> Resolves(r, images, variant) { SameFilter(reqs, slots, images, variant); }
  }

  /** With every requirement resolved, line i describes image i. */
  lemma LineDescribesImage(doc: SpecDoc, slot: CatalogSlot, images: seq<InputImage>, variant: Option<nat>, i: nat)
    requires FindCatalogSlot(doc.catalogSlots, slot.id) == Some(slot) && InOrder(slot.requirements)
    requires forall k | 0 <= k < |slot.requirements| ::
               slot.requirements[k].slot in SlotsById(doc.inputSlots) && Resolves(slot.requirements[k], images, variant)
    ensures |RoleLinesOf(doc, slot.id)| == |AssetsOf(slot.requirements, images, variant)| == |slot.requirements|
    ensures i < |slot.requirements| ==>
              var r := slot.requirements[i];
              RoleLinesOf(doc, slot.id)[i] == LineOf(r, SlotsById(doc.inputSlots)[r.slot])
              && AssetFor(r, images, variant) == Some(AssetsOf(slot.requirements, images, variant)[i])
  {
    var reqs, slots := slot.requirements, SlotsById(doc.inputSlots);
    SortedStays(reqs);
    LinesAreOfDescribed(reqs, slots);
    AssetsAreOfAttached(reqs, images, variant);
    SameFilter(reqs, slots, images, variant);
    AllDescribed(reqs, slots);
  }

  lemma {:induction false} AllDescribed(reqs: seq<Requirement>, slots: map<string, InputSlot>)
    requires forall r | r in reqs :: r.slot in slots
    ensures Described(reqs, slots) == reqs
  {
    if reqs != [] {
      assert reqs[|reqs| - 1] in reqs;
      AllDescribed(reqs[..|reqs| - 1], slots);
      assert reqs == reqs[..|reqs| - 1] + [reqs[|reqs| - 1]];
    }
  }

  /** An optional input that was never captured, followed by one that was: the first line describes the missing
      image and stands against the second requirement's. */
  lemma OptionalWithoutImageShiftsLines(a: Requirement, b: Requirement, slots: map<string, InputSlot>,
                                        images: seq<InputImage>, variant: Option<nat>)
    requires a.position <= b.position && a.slot in slots && b.slot in slots
    requires !a.required && !Resolves(a, images, variant) && Resolves(b, images, variant)
    ensures !Blocks(a, images, variant) && !Blocks(b, images, variant)
    ensures LinesOf(SortByPosition([a, b]), slots) == [LineOf(a, slots[a.slot]), LineOf(b, slots[b.slot])]
    ensures |AssetsOf([a, b], images, variant)| == 1 && AssetFor(b, images, variant) == Some(AssetsOf([a, b], images, variant)[0])
  {
    SortedStays([a, b]);
    TwoLines(a, b, slots);
    SecondAsset(a, b, images, variant);
  }

  lemma TwoLines(a: Requirement, b: Requirement, slots: map<string, InputSlot>)
    requires a.slot in slots && b.slot in slots
    ensures LinesOf([a, b], slots) == [LineOf(a, slots[a.slot]), LineOf(b, slots[b.slot])]
  {
    assert [] + [a] == [a] && [a] + [b] == [a, b];
    LinesSnoc([], a, slots);
    LinesSnoc([a], b, slots);
  }

  lemma SecondAsset(a: Requirement, b: Requirement, images: seq<InputImage>, variant: Option<nat>)
    requires AssetFor(a, images, variant).None? && AssetFor(b, images, variant).Some?
    ensures AssetsOf([a, b], images, variant) == [AssetFor(b, images, variant).value]
  {
    assert [] + [a] == [a] && [a] + [b] == [a, b];
    AssetsSnoc([], a, images, variant);
    AssetsSnoc([a], b, images, variant);
  }

  lemma LinesSnoc(reqs: seq<Requirement>, r: Requirement, slots: map<string, InputSlot>)
    ensures LinesOf(reqs + [r], slots) == LinesOf(reqs, slots) + (if r.slot in slots then [LineOf(r, slots[r.slot])] else [])
  {
    assert (reqs + [r])[..|reqs|] == reqs;
  }

  lemma AssetsSnoc(reqs: seq<Requirement>, r: Requirement, images: seq<InputImage>, variant: Option<nat>)
    ensures AssetsOf(reqs + [r], images, variant) ==
            AssetsOf(reqs, images, variant) + (if AssetFor(r, images, variant).Some? then [AssetFor(r, images, variant).value] else [])
  {
    assert (reqs + [r])[..|reqs|] == reqs;
  }
}
