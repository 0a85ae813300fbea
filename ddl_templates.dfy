/**
 * Create-table DDL templates: SQL text with "%NAME%"-style placeholders that
 * the table definitions fill in with String.replace. A template is described
 * here as a list of pieces, plain text and markers; the lemmas say when a
 * textual replace of one marker is exactly the substitution of that marker
 * piece, and when a template contains a marker.
 */
module DdlTemplates {
  import opened Strings

  datatype Piece = Text(text: string) | Marker(name: string)

  /** The placeholder of a marker: its name between two '%'. */
  function MarkerText(name: string): (r: string)
    ensures |r| == |name| + 2 && r[0] == '%' && r[|r| - 1] == '%' && r[1..|r| - 1] == name
  {
    "%" + name + "%"
  }

  /** The text a piece stands for in the template. */
  function PieceText(p: Piece): string
  {
    match p
    case Text(t) => t
    case Marker(m) => MarkerText(m)
  }

  /** The template text the pieces spell. */
  function Render(ps: seq<Piece>): string
  {
    if ps == [] then "" else PieceText(ps[0]) + Render(ps[1..])
  }

  predicate NameChar(c: char)
  {
    'A' <= c <= 'Z' || c == '_'
  }

  /** The marker names used: NAME, LOCATION, EXTERNAL, PARTITION_SPEC. */
  predicate MarkerName(m: string)
  {
    m != [] && forall k :: 0 <= k < |m| ==> NameChar(m[k])
  }

  /** A marker ends the template or is followed by text that cannot continue a marker name. */
  predicate Closes(rest: seq<Piece>)
  {
    rest == [] || (rest[0].Text? && rest[0].text != [] && !NameChar(rest[0].text[0]))
  }

  /** Text holds no '%'; every marker has a proper name and is closed off by what follows. */
  predicate WellFormed(ps: seq<Piece>)
  {
    ps == [] || (PieceOk(ps[0], ps[1..]) && WellFormed(ps[1..]))
  }

  predicate PieceOk(p: Piece, rest: seq<Piece>)
  {
    match p
    case Text(t) => '%' !in t
    case Marker(m) => MarkerName(m) && Closes(rest)
  }

  /** Every marker `name` becomes the text `value`. */
  function Subst(ps: seq<Piece>, name: string, value: string): (qs: seq<Piece>)
    ensures |qs| == |ps|
    ensures forall k :: 0 <= k < |ps| ==> qs[k] == if ps[k] == Marker(name) then Text(value) else ps[k]
  {
    if ps == [] then []
    else [if ps[0] == Marker(name) then Text(value) else ps[0]] + Subst(ps[1..], name, value)
  }

  // ---------------------------------------------------------------------
  // Lemmas

  lemma RenderCons(p: Piece, rest: seq<Piece>)
    ensures Render([p] + rest) == PieceText(p) + Render(rest)
  {
    assert ([p] + rest)[1..] == rest;
  }

  /** One step of rendering from position k on. */
  lemma RenderStep(ps: seq<Piece>, k: nat, expected: string)
    requires k < |ps|
    requires k + 1 < |ps| ==> expected == PieceText(ps[k]) + Render(ps[k + 1..])
    requires k + 1 == |ps| ==> expected == PieceText(ps[k])
    ensures Render(ps[k..]) == expected
  {
    assert ps[k..][1..] == ps[k + 1..];
  }

  /** One step of the well-formedness check from position k on. */
  lemma WellFormedStep(ps: seq<Piece>, k: nat)
    requires k < |ps| && PieceOk(ps[k], ps[k + 1..]) && WellFormed(ps[k + 1..])
    ensures WellFormed(ps[k..])
  {
    assert ps[k..][1..] == ps[k + 1..];
  }

  lemma SubstCons(p: Piece, rest: seq<Piece>, name: string, value: string)
    ensures Subst([p] + rest, name, value) == [if p == Marker(name) then Text(value) else p] + Subst(rest, name, value)
  {
    assert ([p] + rest)[1..] == rest;
  }

  /** Text without '%' holds no start of a marker. */
  lemma NoStartInText(t: string, s: string, target: string)
    requires '%' !in t && |target| > 0 && target[0] == '%'
    ensures NoStartBefore(t + s, target, |t|)
  {
    forall j | 0 <= j < |t| ensures !OccursAt(t + s, target, j) {
      assert (t + s)[j] == t[j];
    }
  }

  /** The placeholder of another marker, closed off, holds no start of this one. */
  lemma NoStartInOtherMarker(x: string, m: string, s: string)
    requires MarkerName(x) && MarkerName(m) && x != m
    requires s == [] || !NameChar(s[0])
    ensures NoStartBefore(MarkerText(x) + s, MarkerText(m), |x| + 2)
  {
    var w := MarkerText(x) + s;
    var t := MarkerText(m);
    forall j | 0 <= j < |x| + 2 ensures !OccursAt(w, t, j) {
      if j + |t| <= |w| {
        if j == 0 {
          if |m| < |x| {
            assert w[j..j + |t|][|m| + 1] == x[|m|] != t[|m| + 1];
          } else if |m| > |x| {
            assert w[j..j + |t|][|x| + 1] == '%' != t[|x| + 1];
          } else {
            assert w[j..j + |t|][1..|t| - 1] == x != t[1..|t| - 1];
          }
        } else if j <= |x| {
          assert w[j..j + |t|][0] == x[j - 1] != t[0];
        } else {
          assert w[j..j + |t|][1] == s[0] != t[1];
        }
      }
    }
  }

  /** A marker is followed by nothing or by a character that is not part of a name. */
  lemma ClosesRender(rest: seq<Piece>)
    requires Closes(rest)
    ensures Render(rest) == [] || !NameChar(Render(rest)[0])
  {
    if rest != [] {
      assert Render(rest) == rest[0].text + Render(rest[1..]);
    }
  }

  /**
   * String.replace of a marker placeholder in a well-formed template is the
   * substitution of that marker: every marker piece of that name, and
   * nothing else, becomes the value.
   */
  lemma {:induction false} ReplaceRender(ps: seq<Piece>, name: string, value: string)
    requires WellFormed(ps) && MarkerName(name)
    ensures ReplaceAll(Render(ps), MarkerText(name), value) == Render(Subst(ps, name, value))
  {
    var target := MarkerText(name);
    if ps == [] {
      assert !Contains("", target);
      ReplaceAbsent("", target, value);
    } else {
      var rest := ps[1..];
      ReplaceRender(rest, name, value);
      assert Subst(ps, name, value) == [if ps[0] == Marker(name) then Text(value) else ps[0]] + Subst(rest, name, value);
      RenderCons(if ps[0] == Marker(name) then Text(value) else ps[0], Subst(rest, name, value));
      match ps[0]
      case Text(t) =>
        NoStartInText(t, Render(rest), target);
        ReplaceShift(t, Render(rest), target, value);
      case Marker(m) =>
        if m == name {
          ReplaceAtStart(target, Render(rest), value);
        } else {
          ClosesRender(rest);
          NoStartInOtherMarker(m, name, Render(rest));
          ReplaceShift(MarkerText(m), Render(rest), target, value);
        }
    }
  }

  /** A well-formed template contains a marker's placeholder exactly when it has that marker. */
  lemma {:induction false} ContainsRender(ps: seq<Piece>, name: string)
    requires WellFormed(ps) && MarkerName(name)
    ensures Contains(Render(ps), MarkerText(name)) <==> Marker(name) in ps
  {
    var target := MarkerText(name);
    if ps == [] {
      assert !Contains("", target);
    } else {
      var rest := ps[1..];
      ContainsRender(rest, name);
      assert Marker(name) in ps <==> ps[0] == Marker(name) || Marker(name) in rest;
      match ps[0]
      case Text(t) =>
        NoStartInText(t, Render(rest), target);
        ContainsShift(t, Render(rest), target);
      case Marker(m) =>
        if m == name {
          assert Render(ps)[0..|target|] == target;
          ContainsAt(Render(ps), target, 0);
        } else {
          ClosesRender(rest);
          NoStartInOtherMarker(m, name, Render(rest));
          ContainsShift(MarkerText(m), Render(rest), target);
        }
    }
  }

  /** Substituting a value without '%' keeps a template well formed. */
  lemma {:induction false} SubstWellFormed(ps: seq<Piece>, name: string, value: string)
    requires WellFormed(ps) && '%' !in value
    ensures WellFormed(Subst(ps, name, value))
  {
    if ps != [] {
      SubstWellFormed(ps[1..], name, value);
      var qs := Subst(ps, name, value);
      assert qs[1..] == Subst(ps[1..], name, value);
      if ps[0].Marker? && ps[0] != Marker(name) && ps[1..] != [] {
        assert qs[1..][0] == ps[1..][0];
      }
    }
  }

  /** Appending text that starts with a space and holds no '%' keeps a template well formed. */
  lemma {:induction false} AppendWellFormed(ps: seq<Piece>, t: string)
    requires WellFormed(ps) && '%' !in t && t != [] && t[0] == ' '
    ensures WellFormed(ps + [Text(t)])
  {
    if ps != [] {
      AppendWellFormed(ps[1..], t);
      assert (ps + [Text(t)])[1..] == ps[1..] + [Text(t)];
      if ps[1..] != [] {
        assert (ps[1..] + [Text(t)])[0] == ps[1..][0];
      }
    }
  }

  /** Rendering distributes over appending pieces. */
  lemma {:induction false} RenderAppend(ps: seq<Piece>, qs: seq<Piece>)
    ensures Render(ps + qs) == Render(ps) + Render(qs)
  {
    if ps == [] {
      assert ps + qs == qs;
    } else {
      assert (ps + qs)[1..] == ps[1..] + qs;
      RenderAppend(ps[1..], qs);
    }
  }

  /** Substitution acts piece by piece, so it distributes over appending. */
  lemma SubstAppend(ps: seq<Piece>, qs: seq<Piece>, name: string, value: string)
    ensures Subst(ps + qs, name, value) == Subst(ps, name, value) + Subst(qs, name, value)
  {
  }

  /** After substitution the marker is gone and every other marker is still there. */
  lemma SubstMarkers(ps: seq<Piece>, name: string, value: string, other: string)
    requires other != name
    ensures Marker(name) !in Subst(ps, name, value)
    ensures Marker(other) in Subst(ps, name, value) <==> Marker(other) in ps
  {
    var qs := Subst(ps, name, value);
    if Marker(other) in ps {
      var k :| 0 <= k < |ps| && ps[k] == Marker(other);
      assert qs[k] == Marker(other);
    }
  }

  /** A template without the marker is left as it is. */
  lemma SubstAbsent(ps: seq<Piece>, name: string, value: string)
    requires Marker(name) !in ps
    ensures Subst(ps, name, value) == ps
  {
  }
}
