/** The template preview: every bound placeholder of the markup is replaced,
    binding after binding, by the user's value for it or by a fallback. The
    three `getPreviewHtml` functions of the frontend share the fold and differ
    only in the fallback. */
module Preview {
  import opened Text
  import opened Types
  import opened Placeholder

  // ----- The humanised name -----

  /** `v.replace(/_/g, ' ')`. */
  function SpaceUnderscores(s: string): (r: string)
    ensures |r| == |s|
    ensures forall i :: 0 <= i < |r| ==> r[i] != '_'
  {
    seq(|s|, i requires 0 <= i < |s| => if s[i] == '_' then ' ' else s[i])
  }

  /** `s.replace(/\b\w/g, l => l.toUpperCase())`, scanning left to right;
      `afterWord` says whether the character before `s` is a `\w`. */
  function CapitalizeFrom(s: string, afterWord: bool): (r: string)
    ensures |r| == |s|
    decreases |s|
  {
    if s == [] then []
    else
      [if IsWordChar(s[0]) && !afterWord then ToUpperAscii(s[0]) else s[0]]
      + CapitalizeFrom(s[1..], IsWordChar(s[0]))
  }

  /** The fallback text for a placeholder name: `nombre_cliente` reads
      `Nombre Cliente`. */
  function Humanize(v: string): (r: string)
    ensures |r| == |v|
  {
    CapitalizeFrom(SpaceUnderscores(v), false)
  }

  /** A letter or digit: a `\w` that survives the underscore replacement. */
  predicate IsAlnum(c: char) {
    IsWordChar(c) && c != '_'
  }

  /** Position `i` of `v` starts a word once underscores are spaces. */
  predicate StartsWord(v: string, i: nat)
    requires i < |v|
  {
    IsAlnum(v[i]) && (i == 0 || !IsAlnum(v[i - 1]))
  }

  lemma {:induction false} CapitalizeFromAt(s: string, afterWord: bool)
    ensures |CapitalizeFrom(s, afterWord)| == |s|
    ensures forall i :: 0 <= i < |s| ==>
      CapitalizeFrom(s, afterWord)[i]
        == if IsWordChar(s[i]) && !(if i == 0 then afterWord else IsWordChar(s[i - 1]))
           then ToUpperAscii(s[i]) else s[i]
    decreases |s|
  {
    if s != [] {
      var r := CapitalizeFrom(s, afterWord);
      var t := s[1..];
      CapitalizeFromAt(t, IsWordChar(s[0]));
      assert r == [r[0]] + CapitalizeFrom(t, IsWordChar(s[0]));
      forall i | 0 <= i < |s|
        ensures r[i] == if IsWordChar(s[i]) && !(if i == 0 then afterWord else IsWordChar(s[i - 1]))
                        then ToUpperAscii(s[i]) else s[i]
      {
        if i > 0 {
          assert r[i] == CapitalizeFrom(t, IsWordChar(s[0]))[i - 1];
          assert t[i - 1] == s[i];
          if i > 1 {
            assert t[i - 2] == s[i - 1];
          }
        }
      }
    }
  }

  /** The humanised name character by character: an underscore becomes a
      space, the first letter or digit of every word is upper-cased, and
      every other character is kept. */
  lemma HumanizeAt(v: string)
    ensures |Humanize(v)| == |v|
    ensures forall i :: 0 <= i < |v| ==>
      Humanize(v)[i] == if v[i] == '_' then ' '
                        else if StartsWord(v, i) then ToUpperAscii(v[i])
                        else v[i]
  {
    var s := SpaceUnderscores(v);
    CapitalizeFromAt(s, false);
    forall i | 0 <= i < |v|
      ensures Humanize(v)[i] == if v[i] == '_' then ' '
                                else if StartsWord(v, i) then ToUpperAscii(v[i])
                                else v[i]
    {
      assert IsWordChar(s[i]) == IsAlnum(v[i]);
      if i > 0 {
        assert IsWordChar(s[i - 1]) == IsAlnum(v[i - 1]);
      }
    }
  }

  /** The humanised name holds no underscore. */
  lemma HumanizeNoUnderscore(v: string)
    ensures forall i :: 0 <= i < |Humanize(v)| ==> Humanize(v)[i] != '_'
  {
    HumanizeAt(v);
  }

  /** Humanising a humanised name changes nothing. */
  lemma HumanizeIdempotent(v: string)
    ensures Humanize(Humanize(v)) == Humanize(v)
  {
    var h := Humanize(v);
    HumanizeAt(v);
    HumanizeAt(h);
    forall i | 0 <= i < |h| ensures Humanize(h)[i] == h[i] {
      assert IsAlnum(h[i]) == IsAlnum(v[i]);
      if i > 0 {
        assert IsAlnum(h[i - 1]) == IsAlnum(v[i - 1]);
      }
    }
  }

  /** The humanised name of an identifier holds no `{`. */
  lemma HumanizeNoBrace(v: string)
    requires IsIdentifier(v)
    ensures NoBrace(Humanize(v))
  {
    HumanizeAt(v);
    forall i | 0 <= i < |v| ensures Humanize(v)[i] != '{' {
      assert IsWordChar(v[i]);
    }
  }

  /** An underscore separates words that are humanised independently. */
  lemma HumanizeUnderscore(x: string, y: string)
    ensures Humanize(x + "_" + y) == Humanize(x) + " " + Humanize(y)
  {
    var v := x + "_" + y;
    HumanizeAt(v);
    HumanizeAt(x);
    HumanizeAt(y);
    forall i | 0 <= i < |v| ensures Humanize(v)[i] == (Humanize(x) + " " + Humanize(y))[i] {
      if i > |x| {
        assert v[i] == y[i - |x| - 1];
        if i > |x| + 1 {
          assert v[i - 1] == y[i - |x| - 2];
        }
      } else if i < |x| {
        assert v[i] == x[i];
        if i > 0 {
          assert v[i - 1] == x[i - 1];
        }
      }
    }
  }

  /** A word of letters and digits gets its first character upper-cased. */
  lemma HumanizeWord(w: string)
    requires w != [] && forall i :: 0 <= i < |w| ==> IsAlnum(w[i])
    ensures Humanize(w) == [ToUpperAscii(w[0])] + w[1..]
  {
    HumanizeAt(w);
    assert StartsWord(w, 0);
    forall i | 0 < i < |w| ensures Humanize(w)[i] == w[i] {
      assert IsAlnum(w[i - 1]);
    }
  }

  lemma HumanizeNombre()
    ensures Humanize("nombre") == "Nombre"
  {
    var a := "nombre";
    assert forall i :: 0 <= i < |a| ==> IsAlnum(a[i]);
    HumanizeWord(a);
    assert ToUpperAscii('n') == 'N';
  }

  lemma HumanizeCliente()
    ensures Humanize("cliente") == "Cliente"
  {
    var b := "cliente";
    assert forall i :: 0 <= i < |b| ==> IsAlnum(b[i]);
    HumanizeWord(b);
    assert ToUpperAscii('c') == 'C';
  }

  lemma HumanizeExample()
    ensures Humanize("nombre_cliente") == "Nombre Cliente"
  {
    HumanizeNombre();
    HumanizeCliente();
    HumanizeUnderscore("nombre", "cliente");
    ExampleWords();
  }

  lemma ExampleWords()
    ensures "nombre" + "_" + "cliente" == "nombre_cliente"
    ensures "Nombre" + " " + "Cliente" == "Nombre Cliente"
  {
  }

  // ----- The replacement text -----

  /** How a placeholder without a usable value is shown. */
  datatype Fallback =
    | HumanizedName  // the template editor and the template list
    | LiteralSpan    // the document form, which wraps every placeholder in a span

  /** `datos[v]?.trim()` when it is a non-empty string, i.e. when `||` keeps it. */
  function TrimmedValue(datos: map<string, string>, v: string): (r: Option<string>)
    ensures r.Some? <==> v in datos && HasVisibleChar(datos[v])
    ensures r.Some? ==> r.value == Trim(datos[v])
  {
    if v !in datos then None
    else
      TrimEmptyIffBlank(datos[v]);
      if Trim(datos[v]) == [] then None else Some(Trim(datos[v]))
  }

  function SpanOpen(v: string): string {
    "<span class=\"preview-var\" data-var=\"" + v + "\">"
  }

  const SpanClose: string := "</span>"

  /** The text that replaces the token of `v`. */
  function Replacement(policy: Fallback, v: string, datos: map<string, string>): (r: string)
    ensures policy == HumanizedName ==>
      r == if v in datos && HasVisibleChar(datos[v]) then Trim(datos[v]) else Humanize(v)
    ensures policy == LiteralSpan ==>
      r == SpanOpen(v) + (if v in datos && HasVisibleChar(datos[v]) then Trim(datos[v]) else Token(v)) + SpanClose
  {
    match policy
    case HumanizedName => TrimmedValue(datos, v).GetOr(Humanize(v))
    case LiteralSpan => SpanOpen(v) + TrimmedValue(datos, v).GetOr(Token(v)) + SpanClose
  }

  // ----- The fold -----

  /** One binding's step: every token of its name is replaced. */
  function Step(preview: string, campo: CampoPlantilla, datos: map<string, string>, policy: Fallback): string {
    ReplaceAll(preview, Token(campo.nombreVariable), Replacement(policy, campo.nombreVariable, datos))
  }

  /** The preview: the steps of the bindings applied in list order. */
  function PreviewFold(html: string, campos: seq<CampoPlantilla>, datos: map<string, string>, policy: Fallback): string
    decreases |campos|
  {
    if campos == [] then html
    else PreviewFold(Step(html, campos[0], datos, policy), campos[1..], datos, policy)
  }

  /** `getPreviewHtml`: `preview` is reassigned once per binding. */
  method GetPreviewHtml(html: string, campos: seq<CampoPlantilla>, datos: map<string, string>, policy: Fallback)
    returns (preview: string)
    ensures preview == PreviewFold(html, campos, datos, policy)
  {
    preview := html;
    var i := 0;
    while i < |campos|
      invariant 0 <= i <= |campos|
      invariant PreviewFold(preview, campos[i..], datos, policy) == PreviewFold(html, campos, datos, policy)
    {
      var campo := campos[i];
      PreviewFoldAt(preview, campos, i, datos, policy);
      preview := ReplaceAll(preview, Token(campo.nombreVariable), Replacement(policy, campo.nombreVariable, datos));
      i := i + 1;
    }
  }

  lemma PreviewFoldAt(preview: string, campos: seq<CampoPlantilla>, i: nat, datos: map<string, string>, policy: Fallback)
    requires i < |campos|
    ensures PreviewFold(preview, campos[i..], datos, policy)
         == PreviewFold(Step(preview, campos[i], datos, policy), campos[i + 1..], datos, policy)
  {
    assert campos[i..][1..] == campos[i + 1..];
  }

  /** The last binding acts on the text the earlier ones produced. */
  lemma {:induction false} PreviewSnoc(html: string, campos: seq<CampoPlantilla>, c: CampoPlantilla,
                                        datos: map<string, string>, policy: Fallback)
    ensures PreviewFold(html, campos + [c], datos, policy) == Step(PreviewFold(html, campos, datos, policy), c, datos, policy)
    decreases |campos|
  {
    if campos == [] {
      assert campos + [c] == [c];
    } else {
      assert (campos + [c])[1..] == campos[1..] + [c];
      PreviewSnoc(Step(html, campos[0], datos, policy), campos[1..], c, datos, policy);
    }
  }

  /** Markup holding no token of any bound name comes back unchanged; with no
      bindings at all this holds trivially. */
  lemma {:induction false} PreviewUntouched(html: string, campos: seq<CampoPlantilla>,
                                            datos: map<string, string>, policy: Fallback)
    requires forall j :: 0 <= j < |campos| ==> !Contains(html, Token(campos[j].nombreVariable))
    ensures PreviewFold(html, campos, datos, policy) == html
    decreases |campos|
  {
    if campos != [] {
      ReplaceAllAbsent(html, Token(campos[0].nombreVariable), Replacement(policy, campos[0].nombreVariable, datos));
      PreviewUntouched(html, campos[1..], datos, policy);
    }
  }

  // ----- The preview on well-formed markup -----

  /** Every binding names an identifier. */
  predicate IdentifierNames(campos: seq<CampoPlantilla>) {
    forall j :: 0 <= j < |campos| ==> IsIdentifier(campos[j].nombreVariable)
  }

  /** No value the user typed holds a `{`. */
  predicate BraceFreeValues(datos: map<string, string>) {
    forall k :: k in datos ==> NoBrace(datos[k])
  }

  predicate DistinctNames(campos: seq<CampoPlantilla>) {
    forall i, j :: 0 <= i < j < |campos| ==> campos[i].nombreVariable != campos[j].nombreVariable
  }

  function BoundNames(campos: seq<CampoPlantilla>): set<string> {
    set j | 0 <= j < |campos| :: campos[j].nombreVariable
  }

  /** The replacement of `v` as pieces: a span without a value keeps the
      token of `v` inside it. */
  function ReplacementPieces(policy: Fallback, v: string, datos: map<string, string>): seq<Piece> {
    match policy
    case HumanizedName => [Lit(Replacement(policy, v, datos))]
    case LiteralSpan =>
      match TrimmedValue(datos, v)
      case Some(x) => [Lit(SpanOpen(v) + x + SpanClose)]
      case None => [Lit(SpanOpen(v)), Var(v), Lit(SpanClose)]
  }

  lemma NoBraceTrim(s: string)
    requires NoBrace(s)
    ensures NoBrace(Trim(s))
  {
    var t := TrimStart(s);
    assert t == s[|s| - |t|..|s|];
    NoBraceSlice(s, |s| - |t|, |s|);
    var u := TrimEnd(t);
    assert u == t[0..|u|];
    NoBraceSlice(t, 0, |u|);
  }

  lemma NoBraceSlice(s: string, i: nat, j: nat)
    requires NoBrace(s) && i <= j <= |s|
    ensures NoBrace(s[i..j])
  {
    forall k | 0 <= k < j - i
      ensures s[i..j][k] != '{'
    {
      assert s[i..j][k] == s[i + k];
    }
  }

  lemma NoBraceSpan(v: string, x: string)
    requires IsIdentifier(v) && NoBrace(x)
    ensures NoBrace(SpanOpen(v)) && NoBrace(SpanOpen(v) + x + SpanClose)
  {
    var a := "<span class=\"preview-var\" data-var=\"";
    var b := "\">";
    assert NoBrace(a) && NoBrace(b) && NoBrace(SpanClose);
    assert forall i :: 0 <= i < |v| ==> IsWordChar(v[i]);
    assert SpanOpen(v) == a + v + b;
  }

  lemma ReplacementPiecesRender(policy: Fallback, v: string, datos: map<string, string>)
    requires IsIdentifier(v) && BraceFreeValues(datos)
    ensures Render(ReplacementPieces(policy, v, datos)) == Replacement(policy, v, datos)
    ensures WellFormed(ReplacementPieces(policy, v, datos))
  {
    var rs := ReplacementPieces(policy, v, datos);
    var x := TrimmedValue(datos, v);
    if x.Some? {
      NoBraceTrim(datos[v]);
    }
    match policy
    case HumanizedName =>
      assert Render(rs) == RenderPiece(rs[0]) + Render([]);
      if x.None? {
        HumanizeNoBrace(v);
      }
    case LiteralSpan =>
      if x.Some? {
        NoBraceSpan(v, x.value);
        assert Render(rs) == RenderPiece(rs[0]) + Render([]);
      } else {
        NoBraceSpan(v, []);
        assert rs[1..][1..] == [Lit(SpanClose)];
        assert Render(rs[1..][1..]) == SpanClose + Render([]);
        assert Render(rs[1..]) == Token(v) + SpanClose;
        assert Render(rs) == SpanOpen(v) + (Token(v) + SpanClose);
      }
  }

  lemma {:induction false} SubstWellFormed(ps: seq<Piece>, v: string, rep: seq<Piece>)
    requires WellFormed(ps) && WellFormed(rep)
    ensures WellFormed(Subst(ps, v, rep))
    decreases |ps|
  {
    if ps != [] {
      assert WellFormedPiece(ps[0]);
      SubstWellFormed(ps[1..], v, rep);
      var head := if ps[0] == Var(v) then rep else [ps[0]];
      assert Subst(ps, v, rep) == head + Subst(ps[1..], v, rep);
    }
  }

  /** The steps on the pieces. */
  function PieceFold(ps: seq<Piece>, campos: seq<CampoPlantilla>, datos: map<string, string>, policy: Fallback): seq<Piece>
    decreases |campos|
  {
    if campos == [] then ps
    else
      var v := campos[0].nombreVariable;
      PieceFold(Subst(ps, v, ReplacementPieces(policy, v, datos)), campos[1..], datos, policy)
  }

  /** On well-formed markup each `replaceAll` of the preview is a
      substitution of pieces. */
  lemma {:induction false} PreviewPieces(ps: seq<Piece>, campos: seq<CampoPlantilla>,
                                         datos: map<string, string>, policy: Fallback)
    requires WellFormed(ps) && IdentifierNames(campos) && BraceFreeValues(datos)
    ensures PreviewFold(Render(ps), campos, datos, policy) == Render(PieceFold(ps, campos, datos, policy))
    decreases |campos|
  {
    if campos != [] {
      var v := campos[0].nombreVariable;
      var rs := ReplacementPieces(policy, v, datos);
      ReplacementPiecesRender(policy, v, datos);
      ReplaceAllRender(ps, v, rs);
      SubstWellFormed(ps, v, rs);
      assert IdentifierNames(campos[1..]);
      PreviewPieces(Subst(ps, v, rs), campos[1..], datos, policy);
    }
  }

  /** The reference meaning of a preview: literal text stays, the token of a
      bound name becomes that name's replacement, any other token stays. */
  function Resolve(ps: seq<Piece>, bound: set<string>, datos: map<string, string>, policy: Fallback): seq<Piece>
    decreases |ps|
  {
    if ps == [] then []
    else
      (if ps[0].Var? && ps[0].name in bound then ReplacementPieces(policy, ps[0].name, datos) else [ps[0]])
      + Resolve(ps[1..], bound, datos, policy)
  }

  lemma {:induction false} ResolveAppend(xs: seq<Piece>, ys: seq<Piece>, bound: set<string>,
                                         datos: map<string, string>, policy: Fallback)
    ensures Resolve(xs + ys, bound, datos, policy) == Resolve(xs, bound, datos, policy) + Resolve(ys, bound, datos, policy)
    decreases |xs|
  {
    if xs == [] {
      assert xs + ys == ys;
    } else {
      assert (xs + ys)[1..] == xs[1..] + ys;
      ResolveAppend(xs[1..], ys, bound, datos, policy);
    }
  }

  /** Pieces naming no bound token resolve to themselves. */
  lemma {:induction false} ResolveFree(ps: seq<Piece>, bound: set<string>, datos: map<string, string>, policy: Fallback)
    requires forall i :: 0 <= i < |ps| && ps[i].Var? ==> ps[i].name !in bound
    ensures Resolve(ps, bound, datos, policy) == ps
    decreases |ps|
  {
    if ps != [] {
      ResolveFree(ps[1..], bound, datos, policy);
      assert ps == [ps[0]] + ps[1..];
    }
  }

  /** Substituting `v` first and resolving the other names afterwards is
      resolving all of them, when the replacement of `v` names none of them. */
  lemma {:induction false} ResolveSubst(ps: seq<Piece>, v: string, bound: set<string>,
                                        datos: map<string, string>, policy: Fallback)
    requires forall i :: 0 <= i < |ReplacementPieces(policy, v, datos)| && ReplacementPieces(policy, v, datos)[i].Var? ==>
      ReplacementPieces(policy, v, datos)[i].name !in bound
    ensures Resolve(Subst(ps, v, ReplacementPieces(policy, v, datos)), bound, datos, policy)
      == Resolve(ps, bound + {v}, datos, policy)
    decreases |ps|
  {
    if ps != [] {
      var rs := ReplacementPieces(policy, v, datos);
      var head := if ps[0] == Var(v) then rs else [ps[0]];
      assert Subst(ps, v, rs) == head + Subst(ps[1..], v, rs);
      ResolveAppend(head, Subst(ps[1..], v, rs), bound, datos, policy);
      ResolveSubst(ps[1..], v, bound, datos, policy);
      if ps[0] == Var(v) {
        ResolveFree(rs, bound, datos, policy);
      } else {
        assert Resolve(head, bound, datos, policy)
          == (if ps[0].Var? && ps[0].name in bound then ReplacementPieces(policy, ps[0].name, datos) else [ps[0]]) + [];
      }
    }
  }

  /** The steps on the pieces resolve every bound name once: always with
      the humanised fallback, and with the span fallback when no name is
      bound twice (a span without a value keeps the token, which a second
      binding of the same name would wrap again). */
  lemma {:induction false} PieceFoldResolve(ps: seq<Piece>, campos: seq<CampoPlantilla>,
                                            datos: map<string, string>, policy: Fallback)
    requires policy == HumanizedName || DistinctNames(campos)
    ensures PieceFold(ps, campos, datos, policy) == Resolve(ps, BoundNames(campos), datos, policy)
    decreases |campos|
  {
    if campos == [] {
      assert BoundNames(campos) == {};
      ResolveFree(ps, {}, datos, policy);
    } else {
      var v := campos[0].nombreVariable;
      var rest := campos[1..];
      var rs := ReplacementPieces(policy, v, datos);
      assert DistinctNames(campos) ==> DistinctNames(rest);
      PieceFoldResolve(Subst(ps, v, rs), rest, datos, policy);
      forall i | 0 <= i < |rs| && rs[i].Var? ensures rs[i].name !in BoundNames(rest) {
        assert policy == LiteralSpan && rs[i].name == v;
      }
      ResolveSubst(ps, v, BoundNames(rest), datos, policy);
      assert BoundNames(campos) == BoundNames(rest) + {v} by {
        forall n | n in BoundNames(campos) ensures n in BoundNames(rest) + {v} {
          var j :| 0 <= j < |campos| && campos[j].nombreVariable == n;
          if j > 0 {
            assert rest[j - 1].nombreVariable == n;
          }
        }
        forall n | n in BoundNames(rest) ensures n in BoundNames(campos) {
          var j :| 0 <= j < |rest| && rest[j].nombreVariable == n;
          assert campos[j + 1].nombreVariable == n;
        }
      }
    }
  }

  /** The preview of well-formed markup: literal text is kept, the token of
      every bound name becomes that name's replacement (the trimmed value,
      or the fallback), and the tokens of unbound names are left as they
      are. */
  lemma PreviewResolves(ps: seq<Piece>, campos: seq<CampoPlantilla>, datos: map<string, string>, policy: Fallback)
    requires WellFormed(ps) && IdentifierNames(campos) && BraceFreeValues(datos)
    requires policy == HumanizedName || DistinctNames(campos)
    ensures PreviewFold(Render(ps), campos, datos, policy) == Render(Resolve(ps, BoundNames(campos), datos, policy))
  {
    PreviewPieces(ps, campos, datos, policy);
    PieceFoldResolve(ps, campos, datos, policy);
  }

  /** A bound placeholder without a value shows its humanised name, and the
      placeholder of an unbound name is left in place. */
  lemma PreviewExample()
    ensures PreviewFold("Hola {{nombre_cliente}}, {{otro}}",
                        [CampoPlantilla(1, 7, "nombre_cliente", "Nombre del cliente", "texto")],
                        map[], HumanizedName)
         == "Hola Nombre Cliente, {{otro}}"
  {
    var campos := [CampoPlantilla(1, 7, "nombre_cliente", "Nombre del cliente", "texto")];
    var ps := [Lit("Hola "), Var("nombre_cliente"), Lit(", "), Var("otro")];
    assert IdentifierNames(campos) by {
      assert campos[0].nombreVariable == "nombre_cliente";
    }
    assert BoundNames(campos) == {"nombre_cliente"} by {
      assert campos[0].nombreVariable == "nombre_cliente";
    }
    ExampleMarkup();
    PreviewResolves(ps, campos, map[], HumanizedName);
    ExampleResolve(ps, BoundNames(campos));
    ExampleRender();
  }

  /** Without the brace-free literal text that `PreviewResolves` asks for,
      bindings interfere: replacing `a` by its value `b` inside `{{{{a}}}}`
      forms the token `{{b}}`, which the later binding `b` then replaces. */
  lemma PreviewInterference()
    ensures PreviewFold("{{{{a}}}}",
                        [CampoPlantilla(1, 1, "a", "A", "texto"), CampoPlantilla(2, 2, "b", "B", "texto")],
                        map["a" := "b"], HumanizedName)
         == "B"
  {
    InterferenceSteps("{{{{a}}}}", CampoPlantilla(1, 1, "a", "A", "texto"), CampoPlantilla(2, 2, "b", "B", "texto"),
                      map["a" := "b"]);
    PreviewFoldTwo("{{{{a}}}}", CampoPlantilla(1, 1, "a", "A", "texto"), CampoPlantilla(2, 2, "b", "B", "texto"),
                   map["a" := "b"], HumanizedName);
  }

  /** Two bindings are two steps. */
  lemma PreviewFoldTwo(html: string, c0: CampoPlantilla, c1: CampoPlantilla, datos: map<string, string>, policy: Fallback)
    ensures PreviewFold(html, [c0, c1], datos, policy) == Step(Step(html, c0, datos, policy), c1, datos, policy)
  {
    var x := Step(html, c0, datos, policy);
    assert [c0, c1][1..] == [c1] && [c1][1..] == [];
    assert PreviewFold(html, [c0, c1], datos, policy) == PreviewFold(x, [c1], datos, policy);
    assert PreviewFold(x, [c1], datos, policy) == PreviewFold(Step(x, c1, datos, policy), [], datos, policy);
  }

  lemma InterferenceSteps(html: string, c0: CampoPlantilla, c1: CampoPlantilla, datos: map<string, string>)
    requires html == "{{{{a}}}}" && c0.nombreVariable == "a" && c1.nombreVariable == "b"
    requires datos == map["a" := "b"]
    ensures Step(html, c0, datos, HumanizedName) == Token("b")
    ensures Step(Token("b"), c1, datos, HumanizedName) == "B"
  {
    InterferenceValues(datos);
    TokenInBraces();
    BracedToken("a", "b");
    InterferenceSecond();
  }

  lemma TokenInBraces()
    ensures "{{{{a}}}}" == "{" + ("{" + (Token("a") + "}}"))
    ensures Token("b") == "{" + ("{" + ("b" + "}}"))
    ensures IsIdentifier("a")
  {
    assert IsWordChar("a"[0]);
  }

  /** A token inside two extra braces: the outer braces are copied and the
      token is replaced, so the result can be a token again. */
  lemma BracedToken(v: string, rep: string)
    requires IsIdentifier(v)
    ensures ReplaceAll("{" + ("{" + (Token(v) + "}}")), Token(v), rep) == "{" + ("{" + (rep + "}}"))
  {
    var pat := Token(v);
    assert pat[2] == v[0] && IsWordChar(v[0]);
    var c2 := pat + "}}";
    var c1 := "{" + c2;
    assert ("{" + c1)[..|pat|][2] != pat[2];
    ReplaceAllSingleBrace(c1, pat, rep);
    assert ("{" + c2)[..|pat|][2] != pat[2];
    ReplaceAllSingleBrace(c2, pat, rep);
    ReplaceAllLeadingMatch("}}", pat, rep);
    assert ReplaceAll("}}", pat, rep) == "}}";
  }

  lemma InterferenceValues(datos: map<string, string>)
    requires datos == map["a" := "b"]
    ensures Replacement(HumanizedName, "a", datos) == "b"
    ensures Replacement(HumanizedName, "b", datos) == "B"
  {
    assert "b"[1..] == [];
    assert !IsWhitespace('b');
    assert HasVisibleChar("b") by { assert !IsWhitespace("b"[0]); }
    assert TrimStart("b") == "b";
    assert TrimEnd("b") == "b";
    assert "b" !in datos;
    assert forall i :: 0 <= i < |"b"| ==> IsAlnum("b"[i]);
    HumanizeWord("b");
    assert ToUpperAscii('b') == 'B';
  }

  lemma InterferenceSecond()
    ensures ReplaceAll(Token("b"), Token("b"), "B") == "B"
  {
    ReplaceAllLeadingMatch([], Token("b"), "B");
    assert Token("b") + [] == Token("b");
  }

  lemma ExampleMarkup()
    ensures WellFormed([Lit("Hola "), Var("nombre_cliente"), Lit(", "), Var("otro")])
    ensures Render([Lit("Hola "), Var("nombre_cliente"), Lit(", "), Var("otro")]) == "Hola {{nombre_cliente}}, {{otro}}"
  {
    assert IsIdentifier("nombre_cliente") && IsIdentifier("otro");
    assert NoBrace("Hola ") && NoBrace(", ");
    ExampleMarkupRender();
  }

  lemma ExampleMarkupRender()
    ensures Render([Lit("Hola "), Var("nombre_cliente"), Lit(", "), Var("otro")]) == "Hola {{nombre_cliente}}, {{otro}}"
  {
    var ps := [Lit("Hola "), Var("nombre_cliente"), Lit(", "), Var("otro")];
    ExampleTail();
    assert ps[2..] == [Lit(", "), Var("otro")];
    assert Render(ps) == "Hola " + (Token("nombre_cliente") + ", {{otro}}");
    ExampleLiteral();
  }

  lemma ExampleLiteral()
    ensures "Hola " + (Token("nombre_cliente") + ", {{otro}}") == "Hola {{nombre_cliente}}, {{otro}}"
  {
  }

  lemma ExampleTail()
    ensures Render([Lit(", "), Var("otro")]) == ", {{otro}}"
  {
    var ps := [Lit(", "), Var("otro")];
    assert Token("otro") == "{{otro}}";
    assert Render(ps[1..]) == "{{otro}}" + Render([]);
  }

  lemma ExampleResolve(ps: seq<Piece>, bound: set<string>)
    requires ps == [Lit("Hola "), Var("nombre_cliente"), Lit(", "), Var("otro")]
    requires bound == {"nombre_cliente"}
    ensures Resolve(ps, bound, map[], HumanizedName) == [Lit("Hola "), Lit("Nombre Cliente"), Lit(", "), Var("otro")]
  {
    var datos: map<string, string> := map[];
    var tail := ps[2..];
    assert ps[1..][1..] == tail;
    ExampleResolveTail(tail, bound);
    ExampleReplacement();
    assert Resolve(ps[1..], bound, datos, HumanizedName) == [Lit("Nombre Cliente")] + tail;
  }

  lemma ExampleResolveTail(qs: seq<Piece>, bound: set<string>)
    requires qs == [Lit(", "), Var("otro")]
    requires bound == {"nombre_cliente"}
    ensures Resolve(qs, bound, map[], HumanizedName) == qs
  {
    var datos: map<string, string> := map[];
    assert "otro" !in bound by { assert "otro"[0] != "nombre_cliente"[0]; }
    assert qs[1..][1..] == [];
    assert Resolve(qs[1..], bound, datos, HumanizedName) == [Var("otro")];
  }

  lemma ExampleReplacement()
    ensures ReplacementPieces(HumanizedName, "nombre_cliente", map[]) == [Lit("Nombre Cliente")]
  {
    HumanizeExample();
  }

  lemma ExampleRender()
    ensures Render([Lit("Hola "), Lit("Nombre Cliente"), Lit(", "), Var("otro")]) == "Hola Nombre Cliente, {{otro}}"
  {
    var tail := [Lit(", "), Var("otro")];
    ExampleTail();
    RenderLitCons("Nombre Cliente", tail);
    RenderLitCons("Hola ", [Lit("Nombre Cliente")] + tail);
    assert [Lit("Hola "), Lit("Nombre Cliente"), Lit(", "), Var("otro")] == [Lit("Hola ")] + ([Lit("Nombre Cliente")] + tail);
    ExampleRenderWords();
  }

  lemma ExampleRenderWords()
    ensures "Hola " + ("Nombre Cliente" + ", {{otro}}") == "Hola Nombre Cliente, {{otro}}"
  {
  }

  lemma RenderLitCons(t: string, ps: seq<Piece>)
    ensures Render([Lit(t)] + ps) == t + Render(ps)
  {
    assert ([Lit(t)] + ps)[1..] == ps;
  }
}
