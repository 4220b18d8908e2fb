/** Finding placeholders in a template and substituting them through a callback, and the law that ties the two
    together: what a second scan finds in the result. */
module PlaceholderScanner {
  import opened Base

  // ---------------------------------------------------------------- the scanner: {{(.*?)}}

  /** Where the shortest body ends: at the first "}}" that no newline precedes. */
  function Close(x: string): (k: Option<nat>)
    ensures k.Some? ==> k.value + 2 <= |x|
  {
    if |x| < 2 then None
    else if x[0] == '}' && x[1] == '}' then Some(0)
    else if x[0] == '\n' then None
    else
      var rest := Close(x[1..]);
      if rest.Some? then Some(rest.value + 1) else None
  }

  /** The shortest text before a "}}", of k characters and without a newline. */
  predicate EndsAfter(x: string, k: nat) {
    && k + 2 <= |x| && x[k] == '}' && x[k + 1] == '}' && '\n' !in x[..k]
    && forall j | 0 <= j < k :: !(x[j] == '}' && x[j + 1] == '}')
  }

  lemma EndsOneLater(x: string, k: nat)
    requires |x| >= 1
    ensures EndsAfter(x, k + 1) <==> x[0] != '\n' && !(|x| >= 2 && x[0] == '}' && x[1] == '}') && EndsAfter(x[1..], k)
  {
    if k + 3 <= |x| {
      assert x[..k + 1] == [x[0]] + x[1..][..k];
      var tail := x[1..];
      assert forall j | 0 <= j < |tail| :: tail[j] == x[j + 1];
    }
  }

  /** `.*?` followed by "}}": the shortest body that ends there, if any. */
  lemma {:induction false} CloseMeans(x: string, k: nat)
    ensures Close(x) == Some(k) <==> EndsAfter(x, k)
  {
    if |x| >= 2 && !(x[0] == '}' && x[1] == '}') && k > 0 {
      EndsOneLater(x, k - 1);
      CloseMeans(x[1..], k - 1);
    }
  }

  lemma CloseEnds(x: string)
    requires Close(x).Some?
    ensures EndsAfter(x, Close(x).value)
  {
    CloseMeans(x, Close(x).value);
  }

  /** A "}}" with no newline before it closes the body, if nothing closed it earlier. */
  lemma {:induction false} ClosesBy(x: string, j: nat)
    requires j + 2 <= |x| && x[j] == '}' && x[j + 1] == '}' && '\n' !in x[..j]
    ensures Close(x).Some? && Close(x).value <= j
  {
    if j > 0 {
      assert x[0] == x[..j][0] && x[1..][..j - 1] == x[..j][1..];
      ClosesBy(x[1..], j - 1);
    }
  }

  datatype Token = Lit(c: char) | Hole(body: string)

  predicate OpensHole(s: string) { |s| >= 2 && s[0] == '{' && s[1] == '{' && Close(s[2..]).Some? }

  function FirstHole(s: string): Token
    requires OpensHole(s)
  {
    Hole(s[2..2 + Close(s[2..]).value])
  }

  function AfterHole(s: string): string
    requires OpensHole(s)
  {
    s[Close(s[2..]).value + 4..]
  }

  /** Leftmost matches, one after the other; every other character stands for itself. */
  function Tokenize(s: string): seq<Token>
    decreases |s|
  {
    if s == "" then []
    else if OpensHole(s) then [FirstHole(s)] + Tokenize(AfterHole(s))
    else [Lit(s[0])] + Tokenize(s[1..])
  }

  function Show(t: Token): string { match t case Lit(c) => [c] case Hole(body) => "{{" + body + "}}" }

  function Render(tokens: seq<Token>): string {
    if tokens == [] then "" else Show(tokens[0]) + Render(tokens[1..])
  }

  lemma MatchText(s: string)
    requires OpensHole(s)
    ensures s == Show(FirstHole(s)) + AfterHole(s)
  {
    var k := Close(s[2..]).value;
    CloseEnds(s[2..]);
    assert s[..2] == "{{" && s[2 + k..k + 4] == "}}";
    assert s == s[..2] + s[2..2 + k] + s[2 + k..k + 4] + s[k + 4..];
  }

  /** Scanning loses nothing. */
  lemma {:induction false} RenderTokenize(s: string)
    ensures Render(Tokenize(s)) == s
    decreases |s|
  {
    if s == "" {
    } else if OpensHole(s) {
      RenderTokenize(AfterHole(s));
      MatchText(s);
    } else {
      RenderTokenize(s[1..]);
      assert s == [s[0]] + s[1..];
    }
  }

  /** The pattern matches at the head of the text, with this body. */
  predicate MatchesHead(s: string, body: string) {
    |s| >= 2 && s[0] == '{' && s[1] == '{' && EndsAfter(s[2..], |body|) && s[2..2 + |body|] == body
  }

  lemma MatchMeans(s: string, body: string)
    ensures OpensHole(s) && FirstHole(s) == Hole(body) <==> MatchesHead(s, body)
  {
    if |s| >= 2 { CloseMeans(s[2..], |body|); }
  }

  /** A token read off the head of the text: a placeholder exactly where the pattern matches, else a plain character. */
  ghost predicate Reads(s: string, t: Token) {
    match t
    case Hole(body) => MatchesHead(s, body)
    case Lit(c) => s != "" && s[0] == c && forall body :: !MatchesHead(s, body)
  }

  function AfterHead(s: string): string
    requires s != ""
  {
    if OpensHole(s) then AfterHole(s) else s[1..]
  }

  lemma HeadSplits(s: string) returns (token: Token)
    requires s != ""
    ensures Tokenize(s) == [token] + Tokenize(AfterHead(s)) && s == Show(token) + AfterHead(s)
  {
    token := Tokenize(s)[0];
    if OpensHole(s) { MatchText(s); }
  }

  lemma HeadReads(s: string)
    requires s != ""
    ensures Tokenize(s) != [] && Reads(s, Tokenize(s)[0])
  {
    if OpensHole(s) {
      MatchMeans(s, FirstHole(s).body);
    } else {
      forall body ensures !MatchesHead(s, body) { MatchMeans(s, body); }
    }
  }

  lemma RenderOneMore(t: Token, rest: seq<Token>, k: nat)
    requires 0 < k <= |rest| + 1
    ensures Render(([t] + rest)[..k]) == Show(t) + Render(rest[..k - 1])
  {
    assert ([t] + rest)[..k] == [t] + rest[..k - 1];
    assert ([t] + rest[..k - 1])[1..] == rest[..k - 1];
  }

  lemma GoOneUp(s: string, head: string, token: Token, later: seq<Token>, k: nat, rest: string)
    requires 0 < k <= |later| && s == Show(token) + head && head == Render(later[..k - 1]) + rest && Reads(rest, later[k - 1])
    ensures s == Render(([token] + later)[..k]) + rest && Reads(rest, ([token] + later)[k])
  {
    RenderOneMore(token, later, k);
    Associates(Show(token), Render(later[..k - 1]), rest);
    assert ([token] + later)[k] == later[k - 1];
  }

  /** The scan finds the leftmost matches: token k is what the text shows once the tokens before it are read. */
  lemma {:induction false} TokensAreLeftmost(s: string, k: nat) returns (rest: string)
    requires k < |Tokenize(s)|
    ensures s == Render(Tokenize(s)[..k]) + rest && Reads(rest, Tokenize(s)[k])
    decreases |s|
  {
    if k == 0 {
      rest := s;
      HeadReads(s);
      assert Tokenize(s)[..0] == [] && s == "" + s;
    } else {
      var token := HeadSplits(s);
      rest := TokensAreLeftmost(AfterHead(s), k - 1);
      GoOneUp(s, AfterHead(s), token, Tokenize(AfterHead(s)), k, rest);
    }
  }

  lemma HoleParts(body: string, z: string)
    ensures var w, n := Show(Hole(body)) + z, |body|;
            && |w| == n + 4 + |z| && w[0] == '{' && w[1] == '{' && w[2..] == body + "}}" + z
            && w[2..2 + n] == body && w[n + 4..] == z
  {
    var w := Show(Hole(body)) + z;
    assert w == "{{" + (body + "}}" + z);
  }

  lemma HoleScans(body: string, z: string)
    requires Close(body + "}}" + z) == Some(|body|)
    ensures Tokenize(Show(Hole(body)) + z) == [Hole(body)] + Tokenize(z)
  {
    var w := Show(Hole(body)) + z;
    HoleParts(body, z);
    assert OpensHole(w) && FirstHole(w) == Hole(body) && AfterHole(w) == z;
  }

  lemma CloseIsLocal(x: string, y: string)
    requires Close(x).Some?
    ensures Close(x[..Close(x).value + 2] + y) == Close(x)
  {
    var k := Close(x).value;
    var w := x[..k + 2] + y;
    CloseEnds(x);
    assert w[..k] == x[..k] && forall j | 0 <= j < k + 2 :: w[j] == x[j];
    CloseMeans(w, k);
  }

  /** The bodies a scan can find: no newline, and no "}}" before the closing one. */
  predicate Scannable(body: string) { Close(body + "}}") == Some(|body|) }

  lemma PlainIsScannable(body: string)
    requires '}' !in body && '\n' !in body
    ensures Scannable(body)
  {
    var x, n := body + "}}", |body|;
    assert x[n] == '}' && x[n + 1] == '}' && x[..n] == body;
    assert forall j | 0 <= j < n :: x[j] == body[j];
    CloseMeans(x, n);
  }

  lemma ScannableScans(body: string, z: string)
    requires Scannable(body)
    ensures Tokenize(Show(Hole(body)) + z) == [Hole(body)] + Tokenize(z)
  {
    CloseIsLocal(body + "}}", z);
    assert (body + "}}")[..|body| + 2] == body + "}}";
    HoleScans(body, z);
  }

  /** A body without closing brace or newline is found as it stands. */
  lemma PlainHoleScans(body: string, z: string)
    requires '}' !in body && '\n' !in body
    ensures Tokenize(Show(Hole(body)) + z) == [Hole(body)] + Tokenize(z)
  {
    PlainIsScannable(body);
    ScannableScans(body, z);
  }

  // ---------------------------------------------------------------- substitution

  /** The callback: text for a match's body, or None to leave the match as it stands. */
  type Callback = string -> Option<string>

  /** A "{{" in the value is closed by no "}}" of the value, and the value's own newline keeps it from reaching further. */
  predicate Shut(rest: string) { Close(rest) == None && '\n' in rest }

  /** A value no second scan can take for the start of a placeholder, whatever follows it. */
  predicate Safe(v: string) {
    && (v != "" ==> v[|v| - 1] != '{')
    && (forall i | 0 <= i < |v| - 1 && v[i] == '{' && v[i + 1] == '{' :: Shut(v[i + 2..]))
  }

  /** Every value it supplies for a body that a scan can find is safe. */
  ghost predicate SuppliesSafe(f: Callback) { forall body | Scannable(body) && f(body).Some? :: Safe(f(body).value) }

  function Lits(v: string): seq<Token> { seq(|v|, k requires 0 <= k < |v| => Lit(v[k])) }

  /** One match, replaced by a value's characters or left as it stands. */
  function Filled(t: Token, f: Callback): seq<Token> {
    if t.Hole? && f(t.body).Some? then Lits(f(t.body).value) else [t]
  }

  function FillTokens(tokens: seq<Token>, f: Callback): seq<Token> {
    if tokens == [] then [] else Filled(tokens[0], f) + FillTokens(tokens[1..], f)
  }

  function Fill(s: string, f: Callback): string { Render(FillTokens(Tokenize(s), f)) }

  lemma {:induction false} RenderConcat(a: seq<Token>, b: seq<Token>)
    ensures Render(a + b) == Render(a) + Render(b)
  {
    if a == [] {
      assert a + b == b;
    } else {
      assert (a + b)[1..] == a[1..] + b;
      RenderConcat(a[1..], b);
    }
  }

  lemma {:induction false} RenderLits(v: string)
    ensures Render(Lits(v)) == v
  {
    if v != "" {
      assert Lits(v)[1..] == Lits(v[1..]);
      RenderLits(v[1..]);
    }
  }

  lemma RenderFillCons(t: Token, rest: seq<Token>, f: Callback)
    ensures FillTokens([t] + rest, f) == Filled(t, f) + FillTokens(rest, f)
    ensures Render(FillTokens([t] + rest, f)) == Render(Filled(t, f)) + Render(FillTokens(rest, f))
  {
    assert ([t] + rest)[1..] == rest;
    RenderConcat(Filled(t, f), FillTokens(rest, f));
  }

  lemma FillMatch(s: string, f: Callback)
    requires OpensHole(s)
    ensures FillTokens(Tokenize(s), f) == Filled(FirstHole(s), f) + FillTokens(Tokenize(AfterHole(s)), f)
    ensures Fill(s, f) == Render(Filled(FirstHole(s), f)) + Fill(AfterHole(s), f)
  {
    RenderFillCons(FirstHole(s), Tokenize(AfterHole(s)), f);
  }

  lemma FillChar(s: string, f: Callback)
    requires s != "" && !OpensHole(s)
    ensures FillTokens(Tokenize(s), f) == [Lit(s[0])] + FillTokens(Tokenize(s[1..]), f)
    ensures Fill(s, f) == [s[0]] + Fill(s[1..], f)
  {
    RenderFillCons(Lit(s[0]), Tokenize(s[1..]), f);
    RenderOne(Lit(s[0]));
  }

  lemma RenderOne(t: Token)
    ensures Render([t]) == Show(t)
  {
    assert Show(t) + "" == Show(t);
  }

  // ---------------------------------------------------------------- scanning the result again

  lemma CloseSkips(x: string)
    requires |x| >= 1 && x[0] != '}' && x[0] != '\n'
    ensures Close(x).Some? <==> Close(x[1..]).Some?
  {}

  /** A match always closes every "{{" before it on its line. */
  lemma HoleCloses(x: string)
    ensures OpensHole(x) ==> Close(x).Some?
  {
    if OpensHole(x) {
      CloseSkips(x);
      CloseSkips(x[1..]);
      assert x[1..][1..] == x[2..];
    }
  }

  /** Where no "}}" was in reach, filling brings none into reach. */
  lemma {:induction false} FillKeepsOpen(x: string, f: Callback)
    requires Close(x) == None
    ensures Close(Fill(x, f)) == None
    decreases |x|
  {
    if x != "" {
      HoleCloses(x);
      FillChar(x, f);
      var y := Fill(x[1..], f);
      if x[0] != '\n' && |x| >= 2 {
        assert Close(x[1..]) == None;
        FillKeepsOpen(x[1..], f);
        HoleCloses(x[1..]);
        FillChar(x[1..], f);
        assert y[0] == x[1];
        assert ([x[0]] + y)[1..] == y;
      }
    }
  }

  /** A brace right before a match would itself have started one. */
  lemma EarlierBraceWins(s: string)
    requires |s| >= 2 && s[0] == '{' && !OpensHole(s)
    ensures !OpensHole(s[1..])
  {
    assert s[1..][1..] == s[2..];
    if s[1] == '{' {
      CloseSkips(s[1..]);
      HoleCloses(s[1..]);
    }
  }

  /** The head of an unmatched character stays unmatched. */
  lemma LitStays(s: string, f: Callback)
    requires s != "" && !OpensHole(s)
    ensures !OpensHole([s[0]] + Fill(s[1..], f))
  {
    var z := Fill(s[1..], f);
    if s[0] == '{' && |s| >= 2 {
      EarlierBraceWins(s);
      FillChar(s[1..], f);
      assert z[0] == s[1];
      if s[1] == '{' {
        assert Close(s[2..]) == None;
        FillKeepsOpen(s[2..], f);
        assert s[1..][1..] == s[2..] && ([s[0]] + z)[2..] == Fill(s[2..], f);
      }
    }
  }

  lemma CloseIsBeforeNewline(x: string, n: nat)
    requires n < |x| && x[n] == '\n' && Close(x).Some?
    ensures Close(x).value + 1 < n
  {
    CloseEnds(x);
    forall j | 0 <= j < Close(x).value ensures x[j] != '\n' { assert x[j] in x[..Close(x).value]; }
  }

  lemma CloseInside(rest: string, z: string)
    requires Close(rest + z).Some? && Close(rest + z).value + 1 < |rest|
    ensures Close(rest).Some?
  {
    var x, k := rest + z, Close(rest + z).value;
    CloseEnds(x);
    assert rest[k] == x[k] && rest[k + 1] == x[k + 1] && rest[..k] == x[..k];
    ClosesBy(rest, k);
  }

  /** What follows a shut rest cannot close it. */
  lemma ShutStays(rest: string, z: string)
    requires Shut(rest)
    ensures Close(rest + z) == None
  {
    var n :| 0 <= n < |rest| && rest[n] == '\n';
    if Close(rest + z).Some? {
      CloseIsBeforeNewline(rest + z, n);
      CloseInside(rest, z);
    }
  }

  lemma SafeOpensNothing(v: string, z: string)
    requires v != "" && Safe(v)
    ensures !OpensHole(v + z)
  {
    if v[0] == '{' && v[1] == '{' {
      ShutStays(v[2..], z);
      assert (v + z)[2..] == v[2..] + z;
    }
  }

  lemma SafeTail(v: string)
    requires v != "" && Safe(v)
    ensures Safe(v[1..])
  {
    forall i | 0 <= i < |v[1..]| - 1 && v[1..][i] == '{' && v[1..][i + 1] == '{' ensures Shut(v[1..][i + 2..]) {
      assert v[i + 1] == '{' && v[i + 1 + 1] == '{' && v[1..][i + 2..] == v[i + 1 + 2..];
    }
  }

  lemma SafeStep(v: string, z: string)
    requires v != "" && Safe(v)
    ensures Safe(v[1..]) && Tokenize(v + z) == [Lit(v[0])] + Tokenize(v[1..] + z)
  {
    SafeTail(v);
    SafeOpensNothing(v, z);
    assert v + z == [v[0]] + (v[1..] + z);
    RescanChar(v[0], v[1..] + z);
  }

  lemma Associates<T>(a: seq<T>, b: seq<T>, c: seq<T>)
    ensures a + (b + c) == a + b + c
  {}

  lemma LitsCons(v: string)
    requires v != ""
    ensures Lits(v) == [Lit(v[0])] + Lits(v[1..])
  {}

  lemma {:induction false} SafeScansAsLits(v: string, z: string)
    requires Safe(v)
    ensures Tokenize(v + z) == Lits(v) + Tokenize(z)
  {
    if v == "" {
      assert v + z == z;
    } else {
      SafeStep(v, z);
      SafeScansAsLits(v[1..], z);
      LitsCons(v);
      Associates([Lit(v[0])], Lits(v[1..]), Tokenize(z));
    }
  }

  lemma KeptHoleScans(s: string, z: string)
    requires OpensHole(s)
    ensures Tokenize(Show(FirstHole(s)) + z) == [FirstHole(s)] + Tokenize(z)
  {
    var x := s[2..];
    var k := Close(x).value;
    CloseEnds(x);
    assert x[..k + 2] == x[..k] + "}}" && x[..k] == s[2..2 + k];
    CloseIsLocal(x, z);
    HoleScans(s[2..2 + k], z);
  }

  /** Scanning the filled text again finds exactly the placeholders that were left standing, in order, and every
      other character as itself. */
  ghost predicate Rescans(s: string, f: Callback) { Tokenize(Fill(s, f)) == FillTokens(Tokenize(s), f) }

  lemma {:induction false} RescanIsExact(s: string, f: Callback)
    requires SuppliesSafe(f)
    ensures Rescans(s, f)
    decreases |s|
  {
    if s == "" {
    } else if OpensHole(s) {
      RescanIsExact(AfterHole(s), f);
      FillMatch(s, f);
      RescanMatch(s, Fill(AfterHole(s), f), f);
    } else {
      RescanIsExact(s[1..], f);
      FillChar(s, f);
      LitStays(s, f);
      RescanChar(s[0], Fill(s[1..], f));
    }
  }

  lemma RescanChar(c: char, z: string)
    requires !OpensHole([c] + z)
    ensures Tokenize([c] + z) == [Lit(c)] + Tokenize(z)
  {
    assert ([c] + z)[1..] == z;
  }

  lemma FoundIsScannable(s: string)
    requires OpensHole(s)
    ensures Scannable(FirstHole(s).body)
  {
    var x := s[2..];
    var k := Close(x).value;
    CloseEnds(x);
    CloseIsLocal(x, "");
    assert x[..k + 2] + "" == s[2..2 + k] + "}}";
  }

  lemma RescanMatch(s: string, z: string, f: Callback)
    requires OpensHole(s) && SuppliesSafe(f)
    ensures Tokenize(Render(Filled(FirstHole(s), f)) + z) == Filled(FirstHole(s), f) + Tokenize(z)
  {
    var hole := FirstHole(s);
    if f(hole.body).Some? {
      var text := f(hole.body).value;
      FoundIsScannable(s);
      RenderLits(text);
      SafeScansAsLits(text, z);
    } else {
      KeptHoleScans(s, z);
      RenderOne(hole);
    }
  }

  lemma {:induction false} FilledIsStable(tokens: seq<Token>, f: Callback)
    ensures FillTokens(FillTokens(tokens, f), f) == FillTokens(tokens, f)
  {
    if tokens != [] {
      assert tokens[0] in tokens;
      FilledIsStable(tokens[1..], f);
      FillConcat(Filled(tokens[0], f), FillTokens(tokens[1..], f), f);
      FilledOnce(tokens[0], f);
    }
  }

  lemma FilledOnce(t: Token, f: Callback)
    ensures FillTokens(Filled(t, f), f) == Filled(t, f)
  {
    if t.Hole? && f(t.body).Some? {
      FillLits(f(t.body).value, f);
    } else {
      assert FillTokens([t], f) == Filled(t, f) + FillTokens([], f);
    }
  }

  lemma {:induction false} FillLits(text: string, f: Callback)
    ensures FillTokens(Lits(text), f) == Lits(text)
  {
    if text != "" {
      assert Lits(text)[1..] == Lits(text[1..]);
      FillLits(text[1..], f);
    }
  }

  lemma {:induction false} FillConcat(a: seq<Token>, b: seq<Token>, f: Callback)
    ensures FillTokens(a + b, f) == FillTokens(a, f) + FillTokens(b, f)
  {
    if a == [] {
      assert a + b == b;
    } else {
      assert (a + b)[1..] == a[1..] + b;
      FillConcat(a[1..], b, f);
    }
  }

  /** Substituting twice is substituting once. */
  lemma FillTwice(s: string, f: Callback)
    requires SuppliesSafe(f)
    ensures Fill(Fill(s, f), f) == Fill(s, f)
  {
    RescanIsExact(s, f);
    FilledIsStable(Tokenize(s), f);
  }

  // ---------------------------------------------------------------- an unsafe value

  ghost predicate HasHole(tokens: seq<Token>) { exists k :: 0 <= k < |tokens| && tokens[k].Hole? }

  /** Wherever a match could start, the scan finds one. */
  lemma {:induction false} OpeningIsFound(s: string, i: nat)
    requires i <= |s| && OpensHole(s[i..])
    ensures HasHole(Tokenize(s))
    decreases |s|
  {
    if OpensHole(s) {
      assert ([FirstHole(s)] + Tokenize(AfterHole(s)))[0].Hole?;
    } else {
      assert i > 0 by { assert s[0..] == s; }
      assert s[1..][i - 1..] == s[i..];
      OpeningIsFound(s[1..], i - 1);
      HasHoleLater(Lit(s[0]), Tokenize(s[1..]));
    }
  }

  lemma HasHoleLater(t: Token, rest: seq<Token>)
    requires HasHole(rest)
    ensures HasHole([t] + rest)
  {
    var k :| 0 <= k < |rest| && rest[k].Hole?;
    assert ([t] + rest)[k + 1] == rest[k];
  }

  lemma LitsConcat(a: string, b: string)
    ensures Lits(a) + Lits(b) == Lits(a + b)
  {}

  /** Filling one placeholder that is followed by text. */
  lemma OneHoleFills(body: string, tail: string, f: Callback)
    requires f(body).Some?
    ensures FillTokens([Hole(body)] + Lits(tail), f) == Lits(f(body).value + tail)
  {
    RenderFillCons(Hole(body), Lits(tail), f);
    FillLits(tail, f);
    LitsConcat(f(body).value, tail);
  }

  lemma OneHoleTemplate(body: string, tail: string, f: Callback)
    requires Scannable(body) && f(body).Some? && Safe(tail)
    ensures Tokenize(Show(Hole(body)) + tail) == [Hole(body)] + Lits(tail)
    ensures FillTokens(Tokenize(Show(Hole(body)) + tail), f) == Lits(f(body).value + tail)
    ensures Fill(Show(Hole(body)) + tail, f) == f(body).value + tail
  {
    ScannableScans(body, tail);
    SafeScansAsLits(tail, "");
    assert tail + "" == tail;
    OneHoleFills(body, tail, f);
    RenderLits(f(body).value + tail);
  }

  lemma UnsafeMeetsBrace(v: string)
    requires v != "" && v[|v| - 1] == '{'
    ensures HasHole(Tokenize(v + "{}}"))
  {
    var w, i := v + "{}}", |v| - 1;
    assert w[i..] == "{{}}";
    assert w[i..][2..] == "}}";
    OpeningIsFound(w, i);
  }

  lemma UnsafeMeetsClose(v: string, i: nat)
    requires i < |v| - 1 && v[i] == '{' && v[i + 1] == '{' && !Shut(v[i + 2..])
    ensures HasHole(Tokenize(v + "}}"))
  {
    var w, rest := v + "}}", v[i + 2..];
    assert w[i..][2..] == rest + "}}";
    var x := rest + "}}";
    if Close(rest).Some? {
      var k := Close(rest).value;
      CloseEnds(rest);
      assert x[k] == rest[k] && x[k + 1] == rest[k + 1] && x[..k] == rest[..k];
      ClosesBy(x, k);
    } else {
      assert x[|rest|] == '}' && x[|rest| + 1] == '}' && x[..|rest|] == rest;
      ClosesBy(x, |rest|);
    }
    OpeningIsFound(w, i);
  }

  /** One unsafe value is enough: in some template, made of its placeholder alone and two or three characters, a
      second scan finds a placeholder where none was left. */
  lemma UnsafeInventsHole(body: string, f: Callback) returns (s: string, tail: string)
    requires Scannable(body) && f(body).Some? && !Safe(f(body).value)
    ensures Tokenize(s) == [Hole(body)] + Lits(tail)
    ensures FillTokens(Tokenize(s), f) == Lits(f(body).value + tail)
    ensures HasHole(Tokenize(Fill(s, f)))
  {
    tail := UnsafeTail(f(body).value);
    s := Show(Hole(body)) + tail;
    OneHoleTemplate(body, tail, f);
  }

  lemma UnsafeTail(v: string) returns (tail: string)
    requires !Safe(v)
    ensures Safe(tail) && HasHole(Tokenize(v + tail))
  {
    assert Safe("}}") && Safe("{}}");
    if v != "" && v[|v| - 1] == '{' {
      tail := "{}}";
      UnsafeMeetsBrace(v);
    } else {
      tail := "}}";
      var i :| 0 <= i < |v| - 1 && v[i] == '{' && v[i + 1] == '{' && !Shut(v[i + 2..]);
      UnsafeMeetsClose(v, i);
    }
  }

  /** The exact law: every template rescans exactly if and only if every value supplied for a body that a scan can
      find is safe. */
  lemma RescanExactIffSafe(f: Callback)
    ensures (forall s: string :: Rescans(s, f)) <==> SuppliesSafe(f)
  {
    if SuppliesSafe(f) {
      forall s: string ensures Rescans(s, f) { RescanIsExact(s, f); }
    } else {
      var body :| Scannable(body) && f(body).Some? && !Safe(f(body).value);
      var s, tail := UnsafeInventsHole(body, f);
      assert !HasHole(Lits(f(body).value + tail));
      assert !Rescans(s, f);
    }
  }

  /** An opening brace at the end of a value is enough to lose the placeholder that follows. */
  lemma OpenBraceLosesPlaceholder(a: string, b: string, f: Callback)
    requires '}' !in a && '\n' !in a && '}' !in b && '\n' !in b
    requires f(a) == Some("{") && f(b) == None
    ensures var s := Show(Hole(a)) + Show(Hole(b));
            FillTokens(Tokenize(s), f) == [Lit('{'), Hole(b)] && Tokenize(Fill(s, f)) == [Hole("{" + b)]
  {
    PlainPair(a, b);
    assert Lits("{") == [Lit('{')];
    FillTwo(Hole(a), Hole(b), f);
    TwoTokens(Lit('{'), Hole(b));
    BraceJoins(b);
  }

  /** A brace in front of a plain match starts the match one character earlier. */
  lemma BraceJoins(body: string)
    requires '}' !in body && '\n' !in body
    ensures Tokenize(Show(Lit('{')) + Show(Hole(body))) == [Hole("{" + body)]
  {
    PlainHoleScans("{" + body, "");
    assert "{" + "{{" == "{{" + "{";
    assert Show(Lit('{')) + Show(Hole(body)) == Show(Hole("{" + body));
    assert Show(Hole("{" + body)) + "" == Show(Hole("{" + body));
  }

  lemma PlainPair(a: string, b: string)
    requires '}' !in a && '\n' !in a && '}' !in b && '\n' !in b
    ensures Tokenize(Show(Hole(a)) + Show(Hole(b))) == [Hole(a), Hole(b)]
  {
    PlainHoleScans(b, "");
    assert Show(Hole(b)) + "" == Show(Hole(b));
    PlainHoleScans(a, Show(Hole(b)));
  }

  lemma FillTwo(a: Token, b: Token, f: Callback)
    ensures FillTokens([a, b], f) == Filled(a, f) + Filled(b, f)
  {
    assert [a, b][1..] == [b] && [b][1..] == [];
    assert FillTokens([b], f) == Filled(b, f) + [];
  }

  lemma TwoTokens(a: Token, b: Token)
    ensures [a] + [b] == [a, b] && Render([a, b]) == Show(a) + Show(b)
  {
    RenderConcat([a], [b]);
    RenderOne(a);
    RenderOne(b);
  }
}
