/** The template editor screen: the payload of bindings sent on save and on
    duplicate, the duplicated record, the fields still free to associate, and
    the guard of the association form. */
module EditarPlantilla {
  import opened Text
  import opened Types
  import opened Seqs
  import Preview

  /** The placeholder names of a list of bindings, in order. */
  function Names(xs: seq<CampoRef>): seq<string> {
    seq(|xs|, i requires 0 <= i < |xs| => xs[i].nombreVariable)
  }

  lemma NamesPrefix(xs: seq<CampoRef>, n: nat)
    requires n <= |xs|
    ensures Names(xs[..n]) == Names(xs)[..n]
  {
  }

  /** Index of the last binding named `n`. */
  function LastWith(xs: seq<CampoRef>, n: string): (k: nat)
    requires n in Names(xs)
    ensures k < |xs| && xs[k].nombreVariable == n
    ensures forall j :: k < j < |xs| ==> xs[j].nombreVariable != n
    decreases |xs|
  {
    var last := |xs| - 1;
    if xs[last].nombreVariable == n then last
    else
      NamesPrefix(xs, last);
      assert n in Names(xs)[..last] by {
        var i :| 0 <= i < |xs| && Names(xs)[i] == n;
        assert i < last;
        assert Names(xs)[..last][i] == n;
      }
      LastWith(xs[..last], n)
  }

  /** Reference meaning of the `Map` keyed by `nombre_variable`: one entry per
      distinct name, in the order the names first appear, each entry being
      the last binding with that name. */
  function Merged(xs: seq<CampoRef>): (r: seq<CampoRef>)
    ensures forall i :: 0 <= i < |r| ==> r[i] in xs && r[i].nombreVariable in Names(xs)
  {
    var order := Dedup(Names(xs));
    DedupSpec(Names(xs));
    seq(|order|, i requires 0 <= i < |order| => xs[LastWith(xs, order[i])])
  }

  /** What the merge promises: the names are distinct and are exactly the
      names of the input, each entry is the last binding with its name, and
      the entries come in the order of their names' first appearance. */
  lemma MergedSpec(xs: seq<CampoRef>)
    ensures Distinct(Names(Merged(xs)))
    ensures forall n :: n in Names(Merged(xs)) <==> n in Names(xs)
    ensures forall i :: 0 <= i < |Merged(xs)| ==>
      Merged(xs)[i] == xs[LastWith(xs, Merged(xs)[i].nombreVariable)]
    ensures forall i, j :: 0 <= i < j < |Merged(xs)| ==>
      FirstIndex(Names(xs), Merged(xs)[i].nombreVariable) < FirstIndex(Names(xs), Merged(xs)[j].nombreVariable)
  {
    var order := Dedup(Names(xs));
    DedupSpec(Names(xs));
    var r := Merged(xs);
    assert Names(r) == order;
    DedupOrdered(Names(xs));
  }

  /** Bindings with distinct names come back unchanged: the merge only ever
      drops earlier bindings of a repeated name. */
  lemma MergedDistinctNames(xs: seq<CampoRef>)
    requires Distinct(Names(xs))
    ensures Merged(xs) == xs
  {
    DedupDistinct(Names(xs));
    forall i | 0 <= i < |xs| ensures Merged(xs)[i] == xs[i] {
      var k := LastWith(xs, Names(xs)[i]);
      assert Names(xs)[k] == Names(xs)[i];
    }
  }

  /** `getPreviewHtml` of the template editor: the humanised fallback. */
  method GetPreviewHtml(html: string, campos: seq<CampoPlantilla>, datos: map<string, string>) returns (preview: string)
    ensures preview == Preview.PreviewFold(html, campos, datos, Preview.HumanizedName)
  {
    preview := Preview.GetPreviewHtml(html, campos, datos, Preview.HumanizedName);
  }

  /** The `Map` filled by `set` in a loop and read back with
      `Array.from(camposUnicos.values())`. */
  method MergeByName(xs: seq<CampoRef>) returns (r: seq<CampoRef>)
    ensures r == Merged(xs)
  {
    var order: seq<string> := [];
    var byName: map<string, CampoRef> := map[];
    var i := 0;
    assert xs[..0] == [];
    while i < |xs|
      invariant 0 <= i <= |xs|
      invariant MergeState(xs, i, order, byName)
    {
      var campo := xs[i];
      MergeStep(xs, i, order, byName);
      byName := byName[campo.nombreVariable := campo];
      if campo.nombreVariable !in order {
        order := order + [campo.nombreVariable];
      }
      i := i + 1;
    }
    r := seq(|order|, j requires 0 <= j < |order| => byName[order[j]]);
    MergeFinal(xs, order, byName, r);
  }

  /** What the loop of the merge keeps after `i` bindings: the keys in
      first-appearance order, and the map holding the last binding of each. */
  ghost predicate MergeState(xs: seq<CampoRef>, i: nat, order: seq<string>, byName: map<string, CampoRef>)
    requires i <= |xs|
  {
    && order == Dedup(Names(xs[..i]))
    && (forall n :: n in byName <==> n in order)
    && (forall n :: n in byName ==> n in Names(xs[..i]) && byName[n] == xs[LastWith(xs[..i], n)])
  }

  lemma MergeStep(xs: seq<CampoRef>, i: nat, order: seq<string>, byName: map<string, CampoRef>)
    requires i < |xs| && MergeState(xs, i, order, byName)
    ensures MergeState(xs, i + 1,
      if xs[i].nombreVariable in order then order else order + [xs[i].nombreVariable],
      byName[xs[i].nombreVariable := xs[i]])
  {
    var name := xs[i].nombreVariable;
    NamesSnoc(xs, i);
    DedupSnoc(Names(xs[..i]), name);
    var m := byName[name := xs[i]];
    forall n | n in m
      ensures n in Names(xs[..i + 1]) && m[n] == xs[LastWith(xs[..i + 1], n)]
    {
      LastWithStep(xs, i, n);
    }
  }

  lemma NamesSnoc(xs: seq<CampoRef>, i: nat)
    requires i < |xs|
    ensures Names(xs[..i + 1]) == Names(xs[..i]) + [xs[i].nombreVariable]
  {
    var ys := xs[..i + 1];
    NamesPrefix(ys, i);
    assert ys[..i] == xs[..i];
  }

  /** The last binding named `n` among the first `i + 1`. */
  lemma LastWithStep(xs: seq<CampoRef>, i: nat, n: string)
    requires i < |xs| && (n == xs[i].nombreVariable || n in Names(xs[..i]))
    ensures n in Names(xs[..i + 1])
    ensures LastWith(xs[..i + 1], n) == if xs[i].nombreVariable == n then i else LastWith(xs[..i], n)
  {
    NamesSnoc(xs, i);
    assert xs[..i + 1][..i] == xs[..i];
  }

  lemma MergeFinal(xs: seq<CampoRef>, order: seq<string>, byName: map<string, CampoRef>, r: seq<CampoRef>)
    requires MergeState(xs, |xs|, order, byName)
    requires |r| == |order| && forall j :: 0 <= j < |order| ==> order[j] in byName && r[j] == byName[order[j]]
    ensures r == Merged(xs)
  {
    assert xs[..|xs|] == xs;
  }

  /** `camposPayload` of `handleGuardar` and `camposParaDuplicar` of
      `handleDuplicar`: the stored bindings merged with the editor's ones when
      the editor has any, the stored bindings as they are otherwise. */
  method CamposPayload(existentes: seq<CampoPlantilla>, asignados: seq<CampoRef>) returns (payload: seq<CampoRef>)
    ensures |asignados| > 0 ==> payload == Merged(ToCampoRefs(existentes) + asignados)
    ensures |asignados| == 0 ==> payload == ToCampoRefs(existentes)
  {
    if |asignados| > 0 {
      payload := MergeByName(ToCampoRefs(existentes) + asignados);
    } else {
      payload := ToCampoRefs(existentes);
    }
  }

  /** A later binding of a stored name replaces the stored one in place, and
      a new name goes to the end. */
  lemma MergeExample()
    ensures Merged([CampoRef(1, "a"), CampoRef(2, "b")] + [CampoRef(3, "b"), CampoRef(4, "c")])
         == [CampoRef(1, "a"), CampoRef(3, "b"), CampoRef(4, "c")]
  {
    var xs := [CampoRef(1, "a"), CampoRef(2, "b")] + [CampoRef(3, "b"), CampoRef(4, "c")];
    ExampleNames(xs);
    ExampleOrder();
    ExampleLast(xs);
  }

  lemma ExampleNames(xs: seq<CampoRef>)
    requires xs == [CampoRef(1, "a"), CampoRef(2, "b")] + [CampoRef(3, "b"), CampoRef(4, "c")]
    ensures Names(xs) == ["a", "b", "b", "c"]
  {
  }

  lemma ExampleOrder()
    ensures Dedup(["a", "b", "b", "c"]) == ["a", "b", "c"]
  {
    assert [] + ["a"] == ["a"] && ["a"] + ["b"] == ["a", "b"];
    assert ["a", "b"] + ["b"] == ["a", "b", "b"] && ["a", "b", "b"] + ["c"] == ["a", "b", "b", "c"];
    assert ["a", "b"] + ["c"] == ["a", "b", "c"];
    DedupSnoc([], "a");
    DedupSnoc(["a"], "b");
    DedupSnoc(["a", "b"], "b");
    DedupSnoc(["a", "b", "b"], "c");
  }

  lemma ExampleLast(xs: seq<CampoRef>)
    requires xs == [CampoRef(1, "a"), CampoRef(2, "b")] + [CampoRef(3, "b"), CampoRef(4, "c")]
    requires Names(xs) == ["a", "b", "b", "c"]
    ensures LastWith(xs, "a") == 0 && LastWith(xs, "b") == 2 && LastWith(xs, "c") == 3
  {
    assert "a" in Names(xs) && "b" in Names(xs) && "c" in Names(xs);
  }

  /** The record `handleDuplicar` sends: the edited name with the copy
      suffix, the edited body unless it is empty, and no `tipo_id`. */
  function Duplicado(nombre: string, descripcion: string, htmlConCampos: string, htmlGuardado: string,
                     campos: seq<CampoRef>): (r: CrearPlantillaData)
    ensures r.nombre == CopiaNombre(nombre) && r.descripcion == descripcion
    ensures r.htmlConCampos == (if htmlConCampos == [] then htmlGuardado else htmlConCampos)
    ensures r.tipoId.None? && r.campos == campos
  {
    CrearPlantillaData(CopiaNombre(nombre), descripcion, if htmlConCampos != [] then htmlConCampos else htmlGuardado, None, campos)
  }

  /** Some stored binding uses the field `id`. */
  predicate Asociado(asociados: seq<CampoPlantilla>, id: int) {
    exists a :: a in asociados && a.campo == id
  }

  /** `camposNoAsociados`: the fields no stored binding uses, in order. */
  function CamposNoAsociados(campos: seq<CampoDisponible>, asociados: seq<CampoPlantilla>): (r: seq<CampoDisponible>)
    ensures forall c :: c in r <==> c in campos && forall a :: a in asociados ==> a.campo != c.id
    ensures forall c :: multiset(r)[c] == if Asociado(asociados, c.id) then 0 else multiset(campos)[c]
    ensures IsSubsequence(r, campos)
  {
    Filter(campos, (c: CampoDisponible) => !Asociado(asociados, c.id))
  }

  /** The guard of `handleAsociarCampo`: a field is chosen (its id is not
      the falsy 0) and the name has a visible character. */
  function PuedeAsociar(campoId: int, nombreVariable: string): (ok: bool)
    ensures ok <==> campoId != 0 && HasVisibleChar(nombreVariable)
  {
    TrimEmptyIffBlank(nombreVariable);
    !(campoId == 0 || Trim(nombreVariable) == [])
  }
}
