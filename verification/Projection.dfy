/** The part of a request body that its fingerprint is made from. */
module Projection {
  import opened Common

  type Path = seq<string>

  datatype Key = Text(text: string) | Foreign(id: nat)

  /** A body as the program holds it; `Other` is a value that JSON does not have. */
  datatype Json =
    | Null
    | Bool(b: bool)
    | Int(i: int)
    | Float(f: real)
    | Str(s: string)
    | Other
    | Arr(items: seq<Json>)
    | Obj(fields: map<Key, Json>)

  datatype Projected = Invalid | Omit | Keep(value: Json)

  predicate IsScalar(v: Json) {
    v.Null? || v.Bool? || v.Int? || v.Float? || v.Str?
  }

  /** A scalar, or a list of scalars. */
  predicate IsLeaf(v: Json) {
    IsScalar(v) || (v.Arr? && forall x :: x in v.items ==> IsScalar(x))
  }

  function KeyText(k: Key): string {
    if k.Text? then k.text else ""
  }

  function Project(v: Json, path: Path, business: set<Path>, secret: set<Path>): Projected
    decreases v, 1
  {
    if path in secret then if IsLeaf(v) then Omit else Invalid
    else if path in business then if IsLeaf(v) then Keep(v) else Invalid
    else if !v.Obj? || exists k :: k in v.fields && k.Foreign? then Invalid
    else
      var parts := Parts(v, path, business, secret);
      if exists k :: k in parts && parts[k].Invalid? then Invalid
      else Keep(Obj(Kept(parts)))
  }

  /** The projections of an object's values. */
  function Parts(v: Json, path: Path, business: set<Path>, secret: set<Path>): map<Key, Projected>
    requires v.Obj?
    decreases v, 0
  {
    map k | k in v.fields :: Project(v.fields[k], path + [KeyText(k)], business, secret)
  }

  /** No classified path is another one, or leads to another one. */
  predicate ValidPaths(business: set<Path>, secret: set<Path>) {
    && business !! secret
    && (forall p :: p in business + secret ==> p != [] && "" !in p)
    && (forall p, q :: p in business + secret && q in business + secret ==> !(|p| < |q| && q[..|p|] == p))
  }

  // ----- what a reader sees of a body -----

  /** The value that a path leads to. */
  function Reach(v: Json, p: Path): Option<Json>
    decreases p
  {
    if p == [] then Some(v)
    else if v.Obj? && Text(p[0]) in v.fields then Reach(v.fields[Text(p[0])], p[1..])
    else None
  }

  /** A classified place holds a leaf, any other one an object with text keys. */
  predicate NodeOk(v: Json, path: Path, business: set<Path>, secret: set<Path>) {
    if path in secret || path in business then IsLeaf(v)
    else v.Obj? && forall k :: k in v.fields ==> k.Text?
  }

  datatype Sight = Branch | Value(v: Json)

  /** What shows at a path: the value at a business path, and that there is an object at an unclassified one. */
  function Visible(v: Json, base: Path, p: Path, business: set<Path>, secret: set<Path>): Option<Sight> {
    var r := Reach(v, p);
    if r.None? || base + p in secret then None
    else if base + p in business then Some(Value(r.value))
    else Some(Branch)
  }

  ghost predicate AllOk(v: Json, base: Path, business: set<Path>, secret: set<Path>) {
    forall p :: Reach(v, p).Some? ==> NodeOk(Reach(v, p).value, base + p, business, secret)
  }

  lemma ReachStep(v: Json, k: string, p: Path)
    requires v.Obj? && Text(k) in v.fields
    ensures Reach(v, [k] + p) == Reach(v.fields[Text(k)], p)
  {
    assert ([k] + p)[1..] == p;
  }

  /** A bad place makes the projection fail. */
  lemma {:induction false} BadPlaceFails(v: Json, base: Path, p: Path, business: set<Path>, secret: set<Path>)
    requires Reach(v, p).Some? && !NodeOk(Reach(v, p).value, base + p, business, secret)
    ensures Project(v, base, business, secret).Invalid?
    decreases p
  {
    if p == [] {
      assert base + p == base;
    } else if base !in secret && base !in business && forall k :: k in v.fields ==> k.Text? {
      var k := Text(p[0]);
      assert base + [p[0]] + p[1..] == base + p;
      BadPlaceFails(v.fields[k], base + [p[0]], p[1..], business, secret);
      assert Parts(v, base, business, secret)[k].Invalid?;
    }
  }

  /** A failed projection has a bad place. */
  lemma {:induction false} FailureHasBadPlace(v: Json, base: Path, business: set<Path>, secret: set<Path>)
    returns (p: Path)
    requires Project(v, base, business, secret).Invalid?
    ensures Reach(v, p).Some? && !NodeOk(Reach(v, p).value, base + p, business, secret)
    decreases v
  {
    p := [];
    assert base + p == base;
    if NodeOk(v, base, business, secret) {
      var k :| k in v.fields && Project(v.fields[k], base + [KeyText(k)], business, secret).Invalid?;
      var q := FailureHasBadPlace(v.fields[k], base + [k.text], business, secret);
      p := [k.text] + q;
      ReachStep(v, k.text, q);
      assert base + [k.text] + q == base + p;
    }
  }

  /** A body is accepted just when every place in it holds what its classification asks for. */
  lemma AcceptedIff(v: Json, base: Path, business: set<Path>, secret: set<Path>)
    ensures !Project(v, base, business, secret).Invalid? <==> AllOk(v, base, business, secret)
  {
    if Project(v, base, business, secret).Invalid? {
      var p := FailureHasBadPlace(v, base, business, secret);
    } else {
      forall p | Reach(v, p).Some? ensures NodeOk(Reach(v, p).value, base + p, business, secret) {
        if !NodeOk(Reach(v, p).value, base + p, business, secret) { BadPlaceFails(v, base, p, business, secret); }
      }
    }
  }

  /** Whether two bodies look the same to a reader who is shown no secret. */
  ghost predicate SameSight(v: Json, w: Json, base: Path, business: set<Path>, secret: set<Path>) {
    forall p :: Visible(v, base, p, business, secret) == Visible(w, base, p, business, secret)
  }

  lemma SameSightChild(v: Json, w: Json, base: Path, business: set<Path>, secret: set<Path>, k: string)
    requires SameSight(v, w, base, business, secret)
    requires v.Obj? && w.Obj? && Text(k) in v.fields && Text(k) in w.fields
    ensures SameSight(v.fields[Text(k)], w.fields[Text(k)], base + [k], business, secret)
  {
    var a, b := v.fields[Text(k)], w.fields[Text(k)];
    forall p ensures Visible(a, base + [k], p, business, secret) == Visible(b, base + [k], p, business, secret) {
      VisibleStep(v, base, k, p, business, secret);
      VisibleStep(w, base, k, p, business, secret);
      assert Visible(v, base, [k] + p, business, secret) == Visible(w, base, [k] + p, business, secret);
    }
  }

  lemma VisibleStep(v: Json, base: Path, k: string, p: Path, business: set<Path>, secret: set<Path>)
    requires v.Obj? && Text(k) in v.fields
    ensures Visible(v.fields[Text(k)], base + [k], p, business, secret) == Visible(v, base, [k] + p, business, secret)
  {
    ReachStep(v, k, p);
    assert base + [k] + p == base + ([k] + p);
  }

  /** The keys an accepted object keeps are those where something shows. */
  lemma KeptIff(v: Json, base: Path, business: set<Path>, secret: set<Path>, k: string)
    requires v.Obj? && Text(k) in v.fields && !Project(v.fields[Text(k)], base + [k], business, secret).Invalid?
    ensures Project(v.fields[Text(k)], base + [k], business, secret).Keep? <==>
              Visible(v, base, [k], business, secret).Some?
  {
    VisibleStep(v, base, k, [], business, secret);
    assert base + [k] + [] == base + [k] && [k] + [] == [k];
  }

  /** Two accepted bodies that look the same have the same projection: secrets make no difference to it. */
  lemma {:induction false} SightDetermines(v: Json, w: Json, base: Path, business: set<Path>, secret: set<Path>)
    requires !Project(v, base, business, secret).Invalid? && !Project(w, base, business, secret).Invalid?
    requires SameSight(v, w, base, business, secret)
    ensures Project(v, base, business, secret) == Project(w, base, business, secret)
    decreases v
  {
    assert base + [] == base && Visible(v, base, [], business, secret) == Visible(w, base, [], business, secret);
    if base !in secret && base !in business {
      SameKept(v, w, base, business, secret);
      SameKept(w, v, base, business, secret);
      forall k | k in v.fields && k in w.fields
        ensures Parts(v, base, business, secret)[k] == Parts(w, base, business, secret)[k]
      {
        SameSightChild(v, w, base, business, secret, k.text);
        assert !Parts(v, base, business, secret)[k].Invalid? && !Parts(w, base, business, secret)[k].Invalid?;
        SightDetermines(v.fields[k], w.fields[k], base + [k.text], business, secret);
      }
      SameObjects(Parts(v, base, business, secret), Parts(w, base, business, secret));
    }
  }

  lemma SameKept(v: Json, w: Json, base: Path, business: set<Path>, secret: set<Path>)
    requires !Project(v, base, business, secret).Invalid? && !Project(w, base, business, secret).Invalid?
    requires base !in secret && base !in business && SameSight(v, w, base, business, secret)
    ensures forall k :: k in v.fields && Parts(v, base, business, secret)[k].Keep? ==> k in w.fields
  {
    forall k | k in v.fields && Parts(v, base, business, secret)[k].Keep? ensures k in w.fields {
      KeptIff(v, base, business, secret, k.text);
      assert Visible(v, base, [k.text], business, secret) == Visible(w, base, [k.text], business, secret);
      assert [k.text][0] == k.text;
    }
  }

  function Kept(parts: map<Key, Projected>): map<Key, Json> {
    map k | k in parts && parts[k].Keep? :: parts[k].value
  }

  lemma SameObjects(a: map<Key, Projected>, b: map<Key, Projected>)
    requires forall k :: k in a && a[k].Keep? ==> k in b
    requires forall k :: k in b && b[k].Keep? ==> k in a
    requires forall k :: k in a && k in b ==> a[k] == b[k]
    ensures Kept(a) == Kept(b)
  {
  }

  /** What shows at a path of a projection. */
  function Shown(r: Projected, base: Path, p: Path, business: set<Path>): Option<Sight> {
    if !r.Keep? || Reach(r.value, p).None? then None
    else if base + p in business then Some(Value(Reach(r.value, p).value))
    else Some(Branch)
  }

  /** The projection of an accepted body shows everything a reader may see, and nothing else. */
  lemma {:induction false} ProjectionShows(v: Json, base: Path, p: Path, business: set<Path>, secret: set<Path>)
    requires !Project(v, base, business, secret).Invalid?
    ensures Shown(Project(v, base, business, secret), base, p, business) == Visible(v, base, p, business, secret)
    decreases p
  {
    var r := Project(v, base, business, secret);
    if p == [] {
      assert base + p == base;
    } else if base !in secret && base !in business && Text(p[0]) in v.fields {
      var k, rest := Text(p[0]), p[1..];
      var child := Parts(v, base, business, secret)[k];
      assert child == Project(v.fields[k], base + [p[0]], business, secret);
      assert base + [p[0]] + rest == base + p && [p[0]] + rest == p;
      ProjectionShows(v.fields[k], base + [p[0]], rest, business, secret);
      VisibleStep(v, base, p[0], rest, business, secret);
      assert k in r.value.fields <==> child.Keep?;
    }
  }

  /** Accepted bodies have the same projection just when they look the same: it depends on no secret, and any
      difference at a business place changes it. */
  lemma ProjectionIff(v: Json, w: Json, base: Path, business: set<Path>, secret: set<Path>)
    requires !Project(v, base, business, secret).Invalid? && !Project(w, base, business, secret).Invalid?
    ensures Project(v, base, business, secret) == Project(w, base, business, secret) <==>
              SameSight(v, w, base, business, secret)
  {
    if SameSight(v, w, base, business, secret) {
      SightDetermines(v, w, base, business, secret);
    } else {
      var p :| Visible(v, base, p, business, secret) != Visible(w, base, p, business, secret);
      ProjectionShows(v, base, p, business, secret);
      ProjectionShows(w, base, p, business, secret);
    }
  }

  /** A body that differs from an accepted one in the value of a secret leaf alone. */
  function WithLeaf(v: Json, p: Path, leaf: Json): Json
    requires Reach(v, p).Some?
    decreases p
  {
    if p == [] then leaf else v.(fields := v.fields[Text(p[0]) := WithLeaf(v.fields[Text(p[0])], p[1..], leaf)])
  }

  /** Replacing the leaf at a secret path changes nothing. */
  lemma {:induction false} SecretLeafIrrelevant(v: Json, base: Path, p: Path, leaf: Json, business: set<Path>,
                                                secret: set<Path>)
    requires !Project(v, base, business, secret).Invalid? && Reach(v, p).Some? && base + p in secret && IsLeaf(leaf)
    ensures Project(WithLeaf(v, p, leaf), base, business, secret) == Project(v, base, business, secret)
    decreases p
  {
    if p == [] {
      assert base + p == base;
    } else if base !in secret && base !in business {
      var k, w := Text(p[0]), WithLeaf(v, p, leaf);
      assert base + [p[0]] + p[1..] == base + p;
      assert !Parts(v, base, business, secret)[k].Invalid?;
      SecretLeafIrrelevant(v.fields[k], base + [p[0]], p[1..], leaf, business, secret);
      assert Parts(w, base, business, secret) == Parts(v, base, business, secret);
    }
  }

  /** When one classified path leads to another, no body has both: the classification could never be used. */
  lemma OverlapNeverAccepted(v: Json, p: Path, q: Path, business: set<Path>, secret: set<Path>)
    requires p in business + secret && |p| < |q| && q[..|p|] == p && Reach(v, q).Some?
    ensures Project(v, [], business, secret).Invalid?
  {
    assert p + q[|p|..] == q && [] + p == p;
    ReachPrefix(v, p, q[|p|..]);
    BadPlaceFails(v, [], p, business, secret);
  }

  /** A classification that the check refuses as overlapping names a path that no accepted body has. */
  lemma RefusedPathsUnusable(business: set<Path>, secret: set<Path>) returns (q: Path)
    requires business !! secret && (forall p :: p in business + secret ==> p != [] && "" !in p)
    requires !ValidPaths(business, secret)
    ensures q in business + secret && forall v :: Reach(v, q).Some? ==> Project(v, [], business, secret).Invalid?
  {
    var p;
    p, q :| p in business + secret && q in business + secret && |p| < |q| && q[..|p|] == p;
    forall v | Reach(v, q).Some? ensures Project(v, [], business, secret).Invalid? {
      OverlapNeverAccepted(v, p, q, business, secret);
    }
  }

  lemma {:induction false} ReachPrefix(v: Json, p: Path, rest: Path)
    requires Reach(v, p + rest).Some? && rest != []
    ensures Reach(v, p).Some? && Reach(v, p).value.Obj?
    decreases p
  {
    if p == [] {
      assert p + rest == rest;
    } else {
      assert (p + rest)[1..] == p[1..] + rest;
      ReachPrefix(v.fields[Text(p[0])], p[1..], rest);
    }
  }

  // ----- what is hashed -----

  const NEWLINE := '\n'

  /** The text whose digest is the fingerprint. */
  function FingerprintInput(verb: string, route: string, body: string): string {
    verb + [NEWLINE] + route + [NEWLINE] + body
  }

  /** Methods and routes hold no line break, so the three parts can be told apart again. */
  lemma InputInjective(verb: string, route: string, body: string, verb2: string, route2: string, body2: string)
    requires NEWLINE !in verb && NEWLINE !in route && NEWLINE !in verb2 && NEWLINE !in route2
    requires FingerprintInput(verb, route, body) == FingerprintInput(verb2, route2, body2)
    ensures verb == verb2 && route == route2 && body == body2
  {
    assert FingerprintInput(verb, route, body) == verb + [NEWLINE] + (route + [NEWLINE] + body);
    assert FingerprintInput(verb2, route2, body2) == verb2 + [NEWLINE] + (route2 + [NEWLINE] + body2);
    FirstLine(verb, route + [NEWLINE] + body, verb2, route2 + [NEWLINE] + body2);
    FirstLine(route, body, route2, body2);
  }

  lemma FirstLine(a: string, rest: string, b: string, rest2: string)
    requires NEWLINE !in a && NEWLINE !in b && a + [NEWLINE] + rest == b + [NEWLINE] + rest2
    ensures a == b && rest == rest2
  {
    BreakAt(a, rest);
    BreakAt(b, rest2);
    var s := a + [NEWLINE] + rest;
    assert |a| == |b|;
    assert a == s[..|a|] && b == s[..|b|] && rest == s[|a| + 1..] && rest2 == s[|b| + 1..];
  }

  lemma BreakAt(a: string, rest: string)
    requires NEWLINE !in a
    ensures var s := a + [NEWLINE] + rest;
            s[|a|] == NEWLINE && forall i :: 0 <= i < |a| ==> s[i] != NEWLINE
  {
    forall i | 0 <= i < |a| ensures (a + [NEWLINE] + rest)[i] != NEWLINE {
      assert (a + [NEWLINE] + rest)[i] == a[i];
    }
  }
}
