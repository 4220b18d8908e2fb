/** The pattern a placeholder's body must have: a namespace, a dot, a key, and blanks around them. */
module PlaceholderShape {
  import opened Base

  /** Python's `\s` on text. */
  predicate IsSpace(c: char) {
    || '\t' <= c <= '\r' || '\U{1c}' <= c <= '\U{1f}' || c == ' ' || c == '\U{85}' || c == '\U{a0}' || c == '\U{1680}'
    || '\U{2000}' <= c <= '\U{200a}' || c == '\U{2028}' || c == '\U{2029}' || c == '\U{202f}' || c == '\U{205f}' || c == '\U{3000}'
  }

  predicate IsBlank(s: string) { forall k | 0 <= k < |s| :: IsSpace(s[k]) }

  predicate IsKeyChar(c: char) { 'a' <= c <= 'z' || '0' <= c <= '9' || c == '_' }

  predicate IsKey(s: string) { s != "" && 'a' <= s[0] <= 'z' && forall k | 0 <= k < |s| :: IsKeyChar(s[k]) }

  datatype Ref = Ref(namespace: string, key: string)

  function SkipSpaces(s: string): (t: string)
    ensures t == "" || !IsSpace(t[0])
    ensures exists pad :: IsBlank(pad) && s == pad + t
  {
    if s != "" && IsSpace(s[0]) then
      var t := SkipSpaces(s[1..]);
      var pad :| IsBlank(pad) && s[1..] == pad + t;
      assert s == ([s[0]] + pad) + t && IsBlank([s[0]] + pad);
      t
    else
      assert s == "" + s && IsBlank("");
      s
  }

  /** The longest prefix of key characters. */
  function KeyLength(s: string): (n: nat)
    ensures n <= |s| && (forall k | 0 <= k < n :: IsKeyChar(s[k])) && (n < |s| ==> !IsKeyChar(s[n]))
  {
    if s != "" && IsKeyChar(s[0]) then 1 + KeyLength(s[1..]) else 0
  }

  /** The matcher, reading from left to right. */
  function Shape(body: string): Option<Ref> { ReadRef(SkipSpaces(body)) }

  function ReadRef(s: string): Option<Ref> {
    var n := KeyLength(s);
    if !IsKey(s[..n]) || n == |s| || s[n] != '.' then None
    else
      var t := s[n + 1..];
      var m := KeyLength(t);
      if IsKey(t[..m]) && IsBlank(t[m..]) then Some(Ref(s[..n], t[..m])) else None
  }

  ghost predicate Spells(body: string, ref: Ref) {
    IsKey(ref.namespace) && IsKey(ref.key)
    && exists left, right :: IsBlank(left) && IsBlank(right) && body == left + ref.namespace + "." + ref.key + right
  }

  lemma {:induction false} SkipsPad(pad: string, s: string)
    requires IsBlank(pad) && s != "" && !IsSpace(s[0])
    ensures SkipSpaces(pad + s) == s
  {
    if pad == "" {
      assert pad + s == s;
    } else {
      assert (pad + s)[1..] == pad[1..] + s && (pad + s)[0] == pad[0];
      SkipsPad(pad[1..], s);
    }
  }

  lemma {:induction false} KeyStops(key: string, s: string)
    requires (forall k | 0 <= k < |key| :: IsKeyChar(key[k])) && (s != "" ==> !IsKeyChar(s[0]))
    ensures KeyLength(key + s) == |key|
  {
    if key == "" {
      assert key + s == s;
    } else {
      assert (key + s)[1..] == key[1..] + s && (key + s)[0] == key[0];
      KeyStops(key[1..], s);
    }
  }

  lemma SpelledIsShape(body: string, ref: Ref)
    requires Spells(body, ref)
    ensures Shape(body) == Some(ref)
  {
    var left, right :| IsBlank(left) && IsBlank(right) && body == left + ref.namespace + "." + ref.key + right;
    var s := ref.namespace + ("." + (ref.key + right));
    assert body == left + s;
    assert s[0] == ref.namespace[0];
    SkipsPad(left, s);
    ReadsSpelled(ref, right);
  }

  lemma ReadsSpelled(ref: Ref, right: string)
    requires IsKey(ref.namespace) && IsKey(ref.key) && IsBlank(right)
    ensures ReadRef(ref.namespace + ("." + (ref.key + right))) == Some(ref)
  {
    var t := ref.key + right;
    var s := ref.namespace + ("." + t);
    KeyStops(ref.namespace, "." + t);
    KeyStops(ref.key, right);
    assert s[..|ref.namespace|] == ref.namespace && s[|ref.namespace|] == '.' && s[|ref.namespace| + 1..] == t;
    assert t[..|ref.key|] == ref.key && t[|ref.key|..] == right;
  }

  lemma ShapeIsSpelled(body: string)
    requires Shape(body).Some?
    ensures Spells(body, Shape(body).value)
  {
    var s := SkipSpaces(body);
    var left :| IsBlank(left) && body == left + s;
    var n := KeyLength(s);
    var m := KeyLength(s[n + 1..]);
    Reassemble(left, s, n, m);
  }

  lemma Reassemble(left: string, s: string, n: nat, m: nat)
    requires n < |s| && s[n] == '.' && m <= |s| - n - 1
    ensures var t := s[n + 1..]; left + s == left + s[..n] + "." + t[..m] + t[m..]
  {
    var t := s[n + 1..];
    assert t == t[..m] + t[m..];
    assert s == s[..n] + "." + t;
  }

  /** The matcher accepts exactly the bodies the pattern describes, and reads the two names off. */
  lemma ShapeIsThePattern(body: string, ref: Ref)
    ensures Shape(body) == Some(ref) <==> Spells(body, ref)
  {
    if Shape(body) == Some(ref) { ShapeIsSpelled(body); }
    if Spells(body, ref) { SpelledIsShape(body, ref); }
  }

  lemma ShapeNamesKey(body: string)
    requires Shape(body).Some?
    ensures IsKey(Shape(body).value.key)
  {
    ShapeIsSpelled(body);
  }

  lemma PlainShape(namespace: string, key: string)
    requires IsKey(namespace) && IsKey(key)
    ensures Shape(namespace + "." + key) == Some(Ref(namespace, key))
  {
    var body, ref := namespace + "." + key, Ref(namespace, key);
    assert IsBlank("") && body == "" + ref.namespace + "." + ref.key + "";
    SpelledIsShape(body, ref);
  }

  lemma NamespacesAreKeys()
    ensures IsKey("attr") && IsKey("variant")
  {}

  lemma KeyIsPlain(key: string)
    requires IsKey(key)
    ensures '}' !in key && '\n' !in key
  {}
}
