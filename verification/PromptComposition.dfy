/** Checking a template's placeholders against a spec, and composing the prompt from it. The check runs once, when
    the template is analysed; composing runs on every attempt, with the product's own data. */
module PromptComposition {
  import opened Base
  import opened PlaceholderScanner
  import opened PlaceholderShape
  import opened SpecDocument
  import opened RoleLines

  // ---------------------------------------------------------------- the validator

  datatype Problem =
    | SlotNotFound
    | Malformed(body: string)
    | UnknownNamespace(namespace: string, key: string)
    | NotAnInput(key: string)
    | NotAnAttribute(key: string)
    | NotAVariantAxis(key: string)

  datatype Keys = Keys(inputs: set<string>, attributes: set<string>, axes: set<string>)

  function KeysFor(doc: SpecDoc, slot: CatalogSlot): Keys {
    var byId := SlotsById(doc.inputSlots);
    Keys(set r | r in slot.requirements && r.slot in byId :: byId[r.slot].key,
         set key | key in doc.attributes, set key | key in doc.axes)
  }

  predicate RefResolves(ref: Ref, keys: Keys) {
    || (ref.namespace == "input" && ref.key in keys.inputs)
    || (ref.namespace == "attr" && ref.key in keys.attributes)
    || (ref.namespace == "variant" && ref.key in keys.axes)
  }

  /** A placeholder that the spec can resolve: of the right shape, in one of three namespaces, naming a key there. */
  predicate Resolvable(body: string, keys: Keys) {
    Shape(body).Some? && RefResolves(Shape(body).value, keys)
  }

  function Holes(tokens: seq<Token>): seq<string> {
    if tokens == [] then [] else (if tokens[0].Hole? then [tokens[0].body] else []) + Holes(tokens[1..])
  }

  predicate AllResolvable(bodies: seq<string>, keys: Keys) { forall body | body in bodies :: Resolvable(body, keys) }

  /** A problem names the true reason why its placeholder does not resolve. */
  predicate Explains(problem: Problem, body: string, keys: Keys) {
    match problem
    case SlotNotFound => false
    case Malformed(b) => b == body && Shape(body).None?
    case UnknownNamespace(namespace, key) => Shape(body) == Some(Ref(namespace, key)) && namespace !in {"input", "attr", "variant"}
    case NotAnInput(key) => Shape(body) == Some(Ref("input", key)) && key !in keys.inputs
    case NotAnAttribute(key) => Shape(body) == Some(Ref("attr", key)) && key !in keys.attributes
    case NotAVariantAxis(key) => Shape(body) == Some(Ref("variant", key)) && key !in keys.axes
  }

  method CheckPlaceholder(body: string, keys: Keys) returns (problem: Option<Problem>)
    ensures problem.None? <==> Resolvable(body, keys)
    ensures problem.Some? ==> Explains(problem.value, body, keys)
  {
    var shape := Shape(body);
    if shape.None? { return Some(Malformed(body)); }
    var namespace, key := shape.value.namespace, shape.value.key;
    if namespace !in {"input", "attr", "variant"} { return Some(UnknownNamespace(namespace, key)); }
    if namespace == "input" && key !in keys.inputs { return Some(NotAnInput(key)); }
    if namespace == "attr" && key !in keys.attributes { return Some(NotAnAttribute(key)); }
    if namespace == "variant" && key !in keys.axes { return Some(NotAVariantAxis(key)); }
    return None;
  }

  function Select<T>(xs: seq<T>, keep: T -> bool): seq<T> {
    if xs == [] then []
    else Select(xs[..|xs| - 1], keep) + (if keep(xs[|xs| - 1]) then [xs[|xs| - 1]] else [])
  }

  lemma {:induction false} SelectsNone<T>(xs: seq<T>, keep: T -> bool)
    ensures Select(xs, keep) == [] <==> forall x | x in xs :: !keep(x)
  {
    if xs != [] {
      SelectsNone(xs[..|xs| - 1], keep);
      assert xs == xs[..|xs| - 1] + [xs[|xs| - 1]];
    }
  }

  /** The placeholders that do not resolve, in order. */
  function Bad(bodies: seq<string>, keys: Keys): seq<string> { Select(bodies, body => !Resolvable(body, keys)) }

  lemma NoneBadIffResolvable(bodies: seq<string>, keys: Keys)
    ensures Bad(bodies, keys) == [] <==> AllResolvable(bodies, keys)
  {
    SelectsNone(bodies, body => !Resolvable(body, keys));
  }

  ghost predicate Pairwise<A, B>(a: seq<A>, b: seq<B>, related: (A, B) -> bool) {
    |a| == |b| && forall i | 0 <= i < |a| :: related(a[i], b[i])
  }

  lemma PairwiseSnoc<A, B>(a: seq<A>, b: seq<B>, x: A, y: B, related: (A, B) -> bool)
    requires Pairwise(a, b, related) && related(x, y)
    ensures Pairwise(a + [x], b + [y], related)
  {}

  function Explaining(keys: Keys): (Problem, string) -> bool { (problem, body) => Explains(problem, body, keys) }

  /** The loop over the matches of `finditer`. */
  method CheckPlaceholders(bodies: seq<string>, keys: Keys) returns (problems: seq<Problem>)
    ensures Pairwise(problems, Bad(bodies, keys), Explaining(keys))
  {
    problems := [];
    for i := 0 to |bodies|
      invariant Pairwise(problems, Bad(bodies[..i], keys), Explaining(keys))
    {
      assert bodies[..i + 1][..i] == bodies[..i];
      var problem := CheckPlaceholder(bodies[i], keys);
      if problem.Some? {
        PairwiseSnoc(problems, Bad(bodies[..i], keys), problem.value, bodies[i], Explaining(keys));
        problems := problems + [problem.value];
      }
    }
    assert bodies[..|bodies|] == bodies;
  }

  /** Some requirement of the catalog slot names an input slot of this key. */
  ghost predicate NamesInput(doc: SpecDoc, slot: CatalogSlot, key: string) {
    exists r, k: nat :: r in slot.requirements && IsLastSlot(doc.inputSlots, k, r.slot) && doc.inputSlots[k].key == key
  }

  /** A reference that the snapshot declares: an input of the slot, an attribute, or a variant axis. */
  ghost predicate Declared(ref: Ref, doc: SpecDoc, slot: CatalogSlot) {
    || (ref.namespace == "input" && NamesInput(doc, slot, ref.key))
    || (ref.namespace == "attr" && ref.key in doc.attributes)
    || (ref.namespace == "variant" && ref.key in doc.axes)
  }

  lemma InputKeysMean(doc: SpecDoc, slot: CatalogSlot, key: string)
    ensures key in KeysFor(doc, slot).inputs <==> NamesInput(doc, slot, key)
  {
    var byId := SlotsById(doc.inputSlots);
    if key in KeysFor(doc, slot).inputs {
      var r :| r in slot.requirements && r.slot in byId && byId[r.slot].key == key;
      var k := SlotOfId(doc.inputSlots, r.slot);
    }
    if NamesInput(doc, slot, key) {
      var r, k: nat :| r in slot.requirements && IsLastSlot(doc.inputSlots, k, r.slot) && doc.inputSlots[k].key == key;
      LastSlotCounts(doc.inputSlots, k, r.slot);
    }
  }

  lemma ResolvableMeans(body: string, doc: SpecDoc, slot: CatalogSlot)
    ensures Resolvable(body, KeysFor(doc, slot)) <==> Shape(body).Some? && Declared(Shape(body).value, doc, slot)
  {
    if Shape(body).Some? { RefResolvesIff(Shape(body).value, doc, slot); }
  }

  lemma RefResolvesIff(ref: Ref, doc: SpecDoc, slot: CatalogSlot)
    ensures RefResolves(ref, KeysFor(doc, slot)) <==> Declared(ref, doc, slot)
  {
    InputKeysMean(doc, slot, ref.key);
  }

  /** `validate_template_placeholders`: one problem for every placeholder that does not resolve, in order. */
  method ValidateTemplatePlaceholders(doc: SpecDoc, slotId: string, template: string) returns (problems: seq<Problem>)
    ensures var slot := FindCatalogSlot(doc.catalogSlots, slotId);
            && (slot.None? ==> problems == [SlotNotFound])
            && (slot.Some? ==> var keys := KeysFor(doc, slot.value);
                               Pairwise(problems, Bad(Holes(Tokenize(template)), keys), Explaining(keys)))
            && (problems == [] <==> slot.Some? && AllResolvable(Holes(Tokenize(template)), KeysFor(doc, slot.value)))
            && (problems == [] <==> slot.Some? && forall body | body in Holes(Tokenize(template)) ::
                                                    Shape(body).Some? && Declared(Shape(body).value, doc, slot.value))
  {
    var slot := FindCatalogSlot(doc.catalogSlots, slotId);
    if slot.None? { return [SlotNotFound]; }
    problems := CheckPlaceholders(Holes(Tokenize(template)), KeysFor(doc, slot.value));
    NoneBadIffResolvable(Holes(Tokenize(template)), KeysFor(doc, slot.value));
    forall body | body in Holes(Tokenize(template)) { ResolvableMeans(body, doc, slot.value); }
  }

  lemma HolesOfMatch(s: string)
    requires OpensHole(s)
    ensures Holes(Tokenize(s)) == [FirstHole(s).body] + Holes(Tokenize(AfterHole(s)))
  {
    assert Tokenize(s)[1..] == Tokenize(AfterHole(s));
  }

  lemma HolesOfChar(s: string)
    requires s != "" && !OpensHole(s)
    ensures Holes(Tokenize(s)) == Holes(Tokenize(s[1..]))
  {
    assert Tokenize(s)[1..] == Tokenize(s[1..]);
  }

  // ---------------------------------------------------------------- the composer

  type Data = map<string, string>

  /** The variant's sparse override wins, key by key. */
  function MergeAttributes(product: Data, variant: Data): (merged: Data)
    ensures merged.Keys == product.Keys + variant.Keys
    ensures forall key | key in variant :: merged[key] == variant[key]
    ensures forall key | key in product && key !in variant :: merged[key] == product[key]
  {
    product + variant
  }

  /** What the callback does with one match: leave it, replace it, or raise. */
  datatype Replacement = Leave | Text(text: string) | Missing

  function Replace(body: string, attributes: Data, axes: Data): Replacement {
    var shape := Shape(body);
    if shape.None? then Leave else ReplaceRef(shape.value, attributes, axes)
  }

  function ReplaceRef(ref: Ref, attributes: Data, axes: Data): Replacement {
    if ref.namespace == "attr" then (if ref.key in attributes then Text(attributes[ref.key]) else Missing)
    else if ref.namespace == "variant" then (if ref.key in axes then Text(axes[ref.key]) else Missing)
    else Leave
  }

  /** `re.sub` with that callback: the first missing value raises. */
  function SubstituteScene(template: string, attributes: Data, axes: Data): Outcome<string>
    decreases |template|
  {
    if template == "" then Ok("")
    else if OpensHole(template) then
      var replacement := Replace(FirstHole(template).body, attributes, axes);
      if replacement.Missing? then Err(Validation)
      else
        var rest := SubstituteScene(AfterHole(template), attributes, axes);
        if rest.Err? then rest
        else Ok((if replacement.Text? then replacement.text else Show(FirstHole(template))) + rest.result)
    else
      var rest := SubstituteScene(template[1..], attributes, axes);
      if rest.Err? then rest else Ok([template[0]] + rest.result)
  }

  function Joined(lines: seq<string>): string
    requires lines != []
  {
    if |lines| == 1 then lines[0] else Joined(lines[..|lines| - 1]) + "\n" + lines[|lines| - 1]
  }

  function ComposePrompt(doc: SpecDoc, slotId: string, template: string, attributes: Data, axes: Data): Outcome<string> {
    var scene := SubstituteScene(template, attributes, axes);
    if scene.Err? then scene
    else
      var lines := RoleLinesOf(doc, slotId);
      if lines == [] then scene else Ok(scene.result + "\n\n" + Joined(lines))
  }

  // ---------------------------------------------------------------- what a prompt holds

  function Concat(pieces: seq<string>): string { if pieces == [] then "" else pieces[0] + Concat(pieces[1..]) }

  /** What one token of the template leaves in the scene: a character itself; an attribute or axis placeholder its
      value; any other placeholder its own text. */
  predicate IsPiece(token: Token, piece: string, attributes: Data, axes: Data) {
    match token
    case Lit(c) => piece == [c]
    case Hole(body) =>
      var shape := Shape(body);
      if shape.Some? && shape.value.namespace == "attr" then shape.value.key in attributes && piece == attributes[shape.value.key]
      else if shape.Some? && shape.value.namespace == "variant" then shape.value.key in axes && piece == axes[shape.value.key]
      else piece == "{{" + body + "}}"
  }

  function PieceOf(token: Token, attributes: Data, axes: Data): string {
    match token
    case Lit(c) => [c]
    case Hole(body) => var r := Replace(body, attributes, axes); if r.Text? then r.text else Show(token)
  }

  lemma PieceIsSpelled(token: Token, attributes: Data, axes: Data)
    requires token.Hole? ==> !Replace(token.body, attributes, axes).Missing?
    ensures IsPiece(token, PieceOf(token, attributes, axes), attributes, axes)
  {}

  lemma SceneStepHole(template: string, attributes: Data, axes: Data)
    requires OpensHole(template) && SubstituteScene(template, attributes, axes).Ok?
    ensures var hole, rest := FirstHole(template), SubstituteScene(AfterHole(template), attributes, axes);
            && !Replace(hole.body, attributes, axes).Missing? && rest.Ok?
            && SubstituteScene(template, attributes, axes).result == PieceOf(hole, attributes, axes) + rest.result
  {}

  lemma SceneStep(template: string, token: Token, attributes: Data, axes: Data)
    requires template != "" && SubstituteScene(template, attributes, axes).Ok?
    requires token == if OpensHole(template) then FirstHole(template) else Lit(template[0])
    ensures var rest := SubstituteScene(AfterHead(template), attributes, axes);
            && (token.Hole? ==> !Replace(token.body, attributes, axes).Missing?) && rest.Ok?
            && SubstituteScene(template, attributes, axes).result == PieceOf(token, attributes, axes) + rest.result
  {
    if OpensHole(template) { SceneStepHole(template, attributes, axes); }
  }

  lemma PiecesCons(token: Token, tokens: seq<Token>, piece: string, pieces: seq<string>, attributes: Data, axes: Data)
    requires |tokens| == |pieces| && IsPiece(token, piece, attributes, axes)
    requires forall i | 0 <= i < |pieces| :: IsPiece(tokens[i], pieces[i], attributes, axes)
    ensures Concat([piece] + pieces) == piece + Concat(pieces)
    ensures forall i | 0 <= i < |[piece] + pieces| :: IsPiece(([token] + tokens)[i], ([piece] + pieces)[i], attributes, axes)
  {
    assert ([piece] + pieces)[1..] == pieces;
  }

  /** The scene is the template, token by token. */
  lemma {:induction false} SceneMeans(template: string, attributes: Data, axes: Data) returns (pieces: seq<string>)
    requires SubstituteScene(template, attributes, axes).Ok?
    ensures |pieces| == |Tokenize(template)| && SubstituteScene(template, attributes, axes).result == Concat(pieces)
    ensures forall i | 0 <= i < |pieces| :: IsPiece(Tokenize(template)[i], pieces[i], attributes, axes)
    decreases |template|
  {
    if template == "" { return []; }
    var token := if OpensHole(template) then FirstHole(template) else Lit(template[0]);
    SceneStep(template, token, attributes, axes);
    var later := SceneMeans(AfterHead(template), attributes, axes);
    PieceIsSpelled(token, attributes, axes);
    PiecesCons(token, Tokenize(AfterHead(template)), PieceOf(token, attributes, axes), later, attributes, axes);
    pieces := [PieceOf(token, attributes, axes)] + later;
    assert Tokenize(template) == [token] + Tokenize(AfterHead(template));
  }

  predicate LineAt(text: string, at: int, line: string) { 0 <= at && at + |line| <= |text| && text[at..at + |line|] == line }

  /** Line i stands whole at its start, one newline after the line before it. */
  predicate InPlace(text: string, lines: seq<string>, starts: seq<nat>, i: nat)
    requires i < |lines| == |starts|
  {
    && LineAt(text, starts[i], lines[i])
    && (i > 0 ==> starts[i] == starts[i - 1] + |lines[i - 1]| + 1 && LineAt(text, starts[i] - 1, "\n"))
  }

  /** Every line appears whole, in order, one newline apart, and there is nothing else. */
  predicate LaidOut(text: string, lines: seq<string>, starts: seq<nat>) {
    && |starts| == |lines| > 0 && starts[0] == 0 && (forall i | 0 <= i < |lines| :: InPlace(text, lines, starts, i))
    && starts[|lines| - 1] + |lines[|lines| - 1]| == |text|
  }

  lemma LineStays(text: string, more: string, at: int, line: string)
    requires LineAt(text, at, line)
    ensures LineAt(text + more, at, line)
  {
    assert (text + more)[at..at + |line|] == text[at..at + |line|];
  }

  lemma StaysInPlace(text: string, more: string, lines: seq<string>, starts: seq<nat>, line: string, start: nat, i: nat)
    requires i < |lines| == |starts| && InPlace(text, lines, starts, i)
    ensures InPlace(text + more, lines + [line], starts + [start], i)
  {
    LineStays(text, more, starts[i], lines[i]);
    if i > 0 { LineStays(text, more, starts[i] - 1, "\n"); }
  }

  lemma LastInPlace(text: string, line: string)
    ensures var longer := text + "\n" + line; LineAt(longer, |text|, "\n") && LineAt(longer, |text| + 1, line)
  {
    var longer := text + "\n" + line;
    assert longer[|text|..|text| + 1] == "\n" && longer[|text| + 1..] == line;
  }

  lemma OneMoreLine(text: string, lines: seq<string>, starts: seq<nat>, line: string)
    requires LaidOut(text, lines, starts)
    ensures LaidOut(text + "\n" + line, lines + [line], starts + [|text| + 1])
  {
    var lines', starts' := lines + [line], starts + [|text| + 1];
    Associates(text, "\n", line);
    forall i | 0 <= i < |lines'| ensures InPlace(text + "\n" + line, lines', starts', i) {
      if i < |lines| { StaysInPlace(text, "\n" + line, lines, starts, line, |text| + 1, i); } else { LastInPlace(text, line); }
    }
  }

  lemma {:induction false} JoinedLaysOut(lines: seq<string>) returns (starts: seq<nat>)
    requires lines != []
    ensures LaidOut(Joined(lines), lines, starts)
  {
    var before, last := lines[..|lines| - 1], lines[|lines| - 1];
    if before == [] {
      starts := [0];
      assert last[0..|last|] == last;
    } else {
      starts := JoinedLaysOut(before);
      OneMoreLine(Joined(before), before, starts, last);
      starts := starts + [|Joined(before)| + 1];
      assert lines == before + [last];
    }
  }

  /** A composed prompt is the scene, and after it, when the snapshot describes requirements of the slot, a blank line
      and one line for each of them in prompt order: its role, a colon, and what its input slot shows. */
  lemma PromptMeans(doc: SpecDoc, slotId: string, template: string, attributes: Data, axes: Data)
    returns (described: seq<Requirement>, lines: seq<string>, starts: seq<nat>)
    requires ComposePrompt(doc, slotId, template, attributes, axes).Ok?
    ensures SubstituteScene(template, attributes, axes).Ok?
    ensures var prompt, scene := ComposePrompt(doc, slotId, template, attributes, axes).result, SubstituteScene(template, attributes, axes).result;
            if lines == [] then prompt == scene
            else scene + "\n\n" <= prompt && LaidOut(prompt[|scene| + 2..], lines, starts)
    ensures |lines| == |described| && InOrder(described)
    ensures forall i | 0 <= i < |lines| ::
              described[i].slot in SlotsById(doc.inputSlots) && IsLine(lines[i], described[i], SlotsById(doc.inputSlots)[described[i].slot])
    ensures match FindCatalogSlot(doc.catalogSlots, slotId)
            case None => described == []
            case Some(slot) => forall r :: r in described <==> r in SortByPosition(slot.requirements) && r.slot in SlotsById(doc.inputSlots)
  {
    described := RoleLinesMean(doc, slotId);
    lines, starts := RoleLinesOf(doc, slotId), [];
    PromptIsSceneAndLines(doc, slotId, template, attributes, axes);
    if lines != [] { starts := JoinedLaysOut(lines); }
  }

  lemma PromptIsSceneAndLines(doc: SpecDoc, slotId: string, template: string, attributes: Data, axes: Data)
    requires ComposePrompt(doc, slotId, template, attributes, axes).Ok?
    ensures SubstituteScene(template, attributes, axes).Ok?
    ensures var prompt, scene := ComposePrompt(doc, slotId, template, attributes, axes).result, SubstituteScene(template, attributes, axes).result;
            var lines := RoleLinesOf(doc, slotId);
            if lines == [] then prompt == scene else scene + "\n\n" <= prompt && prompt[|scene| + 2..] == Joined(lines)
  {
    var lines := RoleLinesOf(doc, slotId);
    if lines != [] {
      var scene := SubstituteScene(template, attributes, axes).result;
      assert (scene + "\n\n" + Joined(lines))[|scene| + 2..] == Joined(lines);
    }
  }

  // ---------------------------------------------------------------- when composing raises

  predicate AnyMissing(bodies: seq<string>, attributes: Data, axes: Data) {
    exists body | body in bodies :: Replace(body, attributes, axes).Missing?
  }

  lemma AnyMissingCons(body: string, rest: seq<string>, attributes: Data, axes: Data)
    ensures AnyMissing([body] + rest, attributes, axes) <==> Replace(body, attributes, axes).Missing? || AnyMissing(rest, attributes, axes)
  {
    assert forall x :: x in [body] + rest <==> x == body || x in rest;
  }

  lemma {:induction false} SceneRaisesIff(template: string, attributes: Data, axes: Data)
    ensures SubstituteScene(template, attributes, axes).Err? <==> AnyMissing(Holes(Tokenize(template)), attributes, axes)
    decreases |template|
  {
    if template == "" {
    } else if OpensHole(template) {
      SceneRaisesIff(AfterHole(template), attributes, axes);
      HolesOfMatch(template);
      AnyMissingCons(FirstHole(template).body, Holes(Tokenize(AfterHole(template))), attributes, axes);
    } else {
      SceneRaisesIff(template[1..], attributes, axes);
      HolesOfChar(template);
    }
  }

  /** Composing raises exactly when some placeholder names an attribute or axis the product has no value for. */
  lemma ComposeRaisesIff(doc: SpecDoc, slotId: string, template: string, attributes: Data, axes: Data)
    ensures ComposePrompt(doc, slotId, template, attributes, axes).Err? <==> AnyMissing(Holes(Tokenize(template)), attributes, axes)
  {
    SceneRaisesIff(template, attributes, axes);
  }

  /** A template the validator passed never makes composing raise, once the data covers the spec's keys. */
  lemma CleanTemplateComposes(doc: SpecDoc, slot: CatalogSlot, template: string, attributes: Data, axes: Data)
    requires AllResolvable(Holes(Tokenize(template)), KeysFor(doc, slot))
    requires (forall key | key in doc.attributes :: key in attributes) && (forall key | key in doc.axes :: key in axes)
    ensures ComposePrompt(doc, slot.id, template, attributes, axes).Ok?
  {
    ComposeRaisesIff(doc, slot.id, template, attributes, axes);
    var bodies := Holes(Tokenize(template));
    forall body | body in bodies ensures !Replace(body, attributes, axes).Missing? {
      ResolvableHasValue(body, KeysFor(doc, slot), attributes, axes);
    }
  }

  lemma ResolvableHasValue(body: string, keys: Keys, attributes: Data, axes: Data)
    requires Resolvable(body, keys) && keys.attributes <= attributes.Keys && keys.axes <= axes.Keys
    ensures !Replace(body, attributes, axes).Missing?
  {}

  // ---------------------------------------------------------------- what the scene still contains

  function Callbacks(attributes: Data, axes: Data): Callback {
    body => var r := Replace(body, attributes, axes); if r.Text? then Some(r.text) else None
  }

  /** The values that a placeholder can name are safe. */
  predicate SafeData(data: Data) { forall key | key in data && IsKey(key) :: Safe(data[key]) }

  lemma FilledMatchText(s: string, attributes: Data, axes: Data)
    requires OpensHole(s)
    ensures var replacement := Replace(FirstHole(s).body, attributes, axes);
            Render(Filled(FirstHole(s), Callbacks(attributes, axes)))
            == if replacement.Text? then replacement.text else Show(FirstHole(s))
  {
    var f, hole := Callbacks(attributes, axes), FirstHole(s);
    if f(hole.body).Some? { RenderLits(f(hole.body).value); } else { RenderOne(hole); }
  }

  lemma {:induction false} SceneIsFilled(template: string, attributes: Data, axes: Data)
    requires SubstituteScene(template, attributes, axes).Ok?
    ensures SubstituteScene(template, attributes, axes).result == Fill(template, Callbacks(attributes, axes))
    decreases |template|
  {
    if template == "" {
    } else if OpensHole(template) {
      SceneIsFilled(AfterHole(template), attributes, axes);
      FillMatch(template, Callbacks(attributes, axes));
      FilledMatchText(template, attributes, axes);
    } else {
      SceneIsFilled(template[1..], attributes, axes);
      FillChar(template, Callbacks(attributes, axes));
    }
  }

  /** Of the placeholders found, those that composing leaves standing. */
  function Standing(bodies: seq<string>, f: Callback): seq<string> {
    if bodies == [] then [] else (if f(bodies[0]).None? then [bodies[0]] else []) + Standing(bodies[1..], f)
  }

  lemma {:induction false} HolesConcat(a: seq<Token>, b: seq<Token>)
    ensures Holes(a + b) == Holes(a) + Holes(b)
  {
    if a == [] {
      assert a + b == b;
    } else {
      assert (a + b)[1..] == a[1..] + b;
      HolesConcat(a[1..], b);
    }
  }

  lemma {:induction false} NoHolesInLits(text: string)
    ensures Holes(Lits(text)) == []
  {
    if text != "" {
      assert Lits(text)[1..] == Lits(text[1..]);
      NoHolesInLits(text[1..]);
    }
  }

  lemma {:induction false} HolesLeft(tokens: seq<Token>, f: Callback)
    ensures Holes(FillTokens(tokens, f)) == Standing(Holes(tokens), f)
  {
    if tokens != [] {
      var t, rest := tokens[0], tokens[1..];
      HolesLeft(rest, f);
      HolesConcat(Filled(t, f), FillTokens(rest, f));
      if t.Hole? {
        assert ([t.body] + Holes(rest))[1..] == Holes(rest);
        if f(t.body).Some? { NoHolesInLits(f(t.body).value); } else { assert Holes([t]) == [t.body]; }
      } else {
        assert Holes([t]) == [] + Holes([]);
        assert Holes(tokens) == Holes(rest);
      }
    }
  }

  lemma RefIsSafe(ref: Ref, attributes: Data, axes: Data)
    requires SafeData(attributes) && SafeData(axes) && IsKey(ref.key) && ReplaceRef(ref, attributes, axes).Text?
    ensures Safe(ReplaceRef(ref, attributes, axes).text)
  {}

  lemma ReplacementIsSafe(body: string, attributes: Data, axes: Data)
    requires SafeData(attributes) && SafeData(axes) && Replace(body, attributes, axes).Text?
    ensures Safe(Replace(body, attributes, axes).text)
  {
    ShapeNamesKey(body);
    RefIsSafe(Shape(body).value, attributes, axes);
  }

  lemma CallbacksSupplySafe(attributes: Data, axes: Data)
    requires SafeData(attributes) && SafeData(axes)
    ensures SuppliesSafe(Callbacks(attributes, axes))
  {
    forall body | Callbacks(attributes, axes)(body).Some? ensures Safe(Callbacks(attributes, axes)(body).value) {
      ReplacementIsSafe(body, attributes, axes);
    }
  }

  /** Scanning the scene again finds exactly the placeholders left standing, in the template's order. */
  ghost predicate SceneReads(template: string, attributes: Data, axes: Data) {
    var scene := SubstituteScene(template, attributes, axes);
    scene.Ok? ==> Holes(Tokenize(scene.result)) == Standing(Holes(Tokenize(template)), Callbacks(attributes, axes))
  }

  lemma SceneHoles(template: string, attributes: Data, axes: Data)
    requires SafeData(attributes) && SafeData(axes)
    ensures SceneReads(template, attributes, axes)
  {
    if SubstituteScene(template, attributes, axes).Ok? {
      var f := Callbacks(attributes, axes);
      CallbacksSupplySafe(attributes, axes);
      SceneIsFilled(template, attributes, axes);
      RescanIsExact(template, f);
      HolesLeft(Tokenize(template), f);
    }
  }

  lemma {:induction false} HoleIsHeld(tokens: seq<Token>)
    requires HasHole(tokens)
    ensures Holes(tokens) != []
  {
    if !tokens[0].Hole? {
      var k :| 0 <= k < |tokens| && tokens[k].Hole?;
      assert tokens[1..][k - 1] == tokens[k];
      HoleIsHeld(tokens[1..]);
    }
  }

  lemma HolesOfOne(body: string, tail: string)
    ensures Holes([Hole(body)] + Lits(tail)) == [body]
  {
    NoHolesInLits(tail);
    assert ([Hole(body)] + Lits(tail))[1..] == Lits(tail);
  }

  /** An unsafe value that a placeholder can name misleads the second scan of some template. */
  lemma UnsafeValueMisleads(body: string, attributes: Data, axes: Data) returns (template: string)
    requires Scannable(body) && Replace(body, attributes, axes).Text? && !Safe(Replace(body, attributes, axes).text)
    ensures !SceneReads(template, attributes, axes)
  {
    var f := Callbacks(attributes, axes);
    var tail;
    template, tail := UnsafeInventsHole(body, f);
    LoneHoleComposes(template, body, tail, attributes, axes);
    HoleIsHeld(Tokenize(Fill(template, f)));
  }

  lemma LoneHoleComposes(template: string, body: string, tail: string, attributes: Data, axes: Data)
    requires Tokenize(template) == [Hole(body)] + Lits(tail) && Replace(body, attributes, axes).Text?
    ensures SubstituteScene(template, attributes, axes) == Ok(Fill(template, Callbacks(attributes, axes)))
    ensures Standing(Holes(Tokenize(template)), Callbacks(attributes, axes)) == []
  {
    HolesOfOne(body, tail);
    SceneRaisesIff(template, attributes, axes);
    SceneIsFilled(template, attributes, axes);
    OneFilledStandsNot(body, Callbacks(attributes, axes));
  }

  lemma OneFilledStandsNot(body: string, f: Callback)
    requires f(body).Some?
    ensures Standing([body], f) == []
  {
    assert [body][1..] == [];
  }

  lemma NamedBody(namespace: string, key: string)
    requires namespace in {"attr", "variant"} && IsKey(key)
    ensures var body := namespace + "." + key; Scannable(body) && Shape(body) == Some(Ref(namespace, key))
  {
    NamespacesAreKeys();
    PlainShape(namespace, key);
    KeyIsPlain(namespace);
    KeyIsPlain(key);
    PlainIsScannable(namespace + "." + key);
  }

  /** The exact law: every scene reads right, whatever the template, if and only if no value that a placeholder can
      name could be taken for the start of one. */
  lemma ScenesReadIffSafe(attributes: Data, axes: Data)
    ensures (forall template: string :: SceneReads(template, attributes, axes)) <==> SafeData(attributes) && SafeData(axes)
  {
    if SafeData(attributes) && SafeData(axes) {
      forall template: string ensures SceneReads(template, attributes, axes) { SceneHoles(template, attributes, axes); }
    } else {
      var namespace, data := if SafeData(attributes) then "variant" else "attr", if SafeData(attributes) then axes else attributes;
      var key :| key in data && IsKey(key) && !Safe(data[key]);
      NamedBody(namespace, key);
      var template := UnsafeValueMisleads(namespace + "." + key, attributes, axes);
    }
  }

  lemma StandingMissNothing(bodies: seq<string>, attributes: Data, axes: Data)
    requires !AnyMissing(bodies, attributes, axes)
    ensures !AnyMissing(Standing(bodies, Callbacks(attributes, axes)), attributes, axes)
  {
    var standing := Standing(bodies, Callbacks(attributes, axes));
    StandingAreHoles(bodies, Callbacks(attributes, axes));
    forall body | body in standing ensures !Replace(body, attributes, axes).Missing? {
      assert body in bodies;
    }
  }

  /** With safe values, scanning the scene again finds exactly the placeholders left standing, in
      the template's order; and substituting again changes nothing. */
  lemma SceneRescans(template: string, attributes: Data, axes: Data)
    requires SafeData(attributes) && SafeData(axes) && SubstituteScene(template, attributes, axes).Ok?
    ensures var scene := SubstituteScene(template, attributes, axes).result;
            && Holes(Tokenize(scene)) == Standing(Holes(Tokenize(template)), Callbacks(attributes, axes))
            && SubstituteScene(scene, attributes, axes) == Ok(scene)
  {
    var scene := SubstituteScene(template, attributes, axes).result;
    SceneHoles(template, attributes, axes);
    SceneRaisesIff(template, attributes, axes);
    StandingMissNothing(Holes(Tokenize(template)), attributes, axes);
    SceneRaisesIff(scene, attributes, axes);
    SceneAgain(template, attributes, axes);
  }

  lemma SceneAgain(template: string, attributes: Data, axes: Data)
    requires SafeData(attributes) && SafeData(axes) && SubstituteScene(template, attributes, axes).Ok?
    requires SubstituteScene(SubstituteScene(template, attributes, axes).result, attributes, axes).Ok?
    ensures SubstituteScene(SubstituteScene(template, attributes, axes).result, attributes, axes)
            == SubstituteScene(template, attributes, axes)
  {
    CallbacksSupplySafe(attributes, axes);
    SceneIsFilled(template, attributes, axes);
    SceneIsFilled(SubstituteScene(template, attributes, axes).result, attributes, axes);
    FillTwice(template, Callbacks(attributes, axes));
  }

  lemma {:induction false} StandingAreHoles(bodies: seq<string>, f: Callback)
    ensures forall body | body in Standing(bodies, f) :: body in bodies && f(body).None?
  {
    if bodies != [] { StandingAreHoles(bodies[1..], f); }
  }

  predicate IsInput(body: string) { Shape(body).Some? && Shape(body).value.namespace == "input" }

  function InputsOf(bodies: seq<string>): seq<string> {
    if bodies == [] then [] else (if IsInput(bodies[0]) then [bodies[0]] else []) + InputsOf(bodies[1..])
  }

  lemma StandsIffInput(body: string, keys: Keys, attributes: Data, axes: Data)
    requires Resolvable(body, keys) && !Replace(body, attributes, axes).Missing?
    ensures Callbacks(attributes, axes)(body).None? <==> IsInput(body)
  {}

  lemma {:induction false} StandingAreInputs(bodies: seq<string>, f: Callback)
    requires forall body | body in bodies :: f(body).None? <==> IsInput(body)
    ensures Standing(bodies, f) == InputsOf(bodies)
  {
    if bodies != [] {
      assert bodies[0] in bodies;
      StandingAreInputs(bodies[1..], f);
    }
  }

  /** In a template the validator passed, what stands are exactly the input placeholders, in order. */
  lemma CleanLeavesInputs(bodies: seq<string>, keys: Keys, attributes: Data, axes: Data)
    requires AllResolvable(bodies, keys) && !AnyMissing(bodies, attributes, axes)
    ensures Standing(bodies, Callbacks(attributes, axes)) == InputsOf(bodies)
  {
    forall body | body in bodies ensures Callbacks(attributes, axes)(body).None? <==> IsInput(body) {
      StandsIffInput(body, keys, attributes, axes);
    }
    StandingAreInputs(bodies, Callbacks(attributes, axes));
  }

  /** The scene of a clean template, scanned again, shows its input placeholders and nothing else. */
  lemma CleanSceneShowsInputs(doc: SpecDoc, slot: CatalogSlot, template: string, attributes: Data, axes: Data)
    requires AllResolvable(Holes(Tokenize(template)), KeysFor(doc, slot))
    requires SafeData(attributes) && SafeData(axes) && SubstituteScene(template, attributes, axes).Ok?
    ensures Holes(Tokenize(SubstituteScene(template, attributes, axes).result)) == InputsOf(Holes(Tokenize(template)))
  {
    SceneHoles(template, attributes, axes);
    SceneRaisesIff(template, attributes, axes);
    CleanLeavesInputs(Holes(Tokenize(template)), KeysFor(doc, slot), attributes, axes);
  }
}
