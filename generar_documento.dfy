/** The document form: one input per binding, whose values feed the span
    preview. */
module GenerarDocumento {
  import opened Text
  import opened Types
  import opened Preview

  /** `getPreviewHtml` of the form: every bound placeholder wrapped in a span. */
  method GetPreviewHtml(html: string, campos: seq<CampoPlantilla>, datos: map<string, string>) returns (preview: string)
    ensures preview == PreviewFold(html, campos, datos, LiteralSpan)
  {
    preview := Preview.GetPreviewHtml(html, campos, datos, LiteralSpan);
  }

  /** The effect on `plantilla`: every bound name starts with an empty value. */
  method DatosIniciales(campos: seq<CampoPlantilla>) returns (datos: map<string, string>)
    ensures datos.Keys == BoundNames(campos)
    ensures forall k :: k in datos ==> datos[k] == []
  {
    datos := map[];
    var i := 0;
    while i < |campos|
      invariant 0 <= i <= |campos|
      invariant datos.Keys == BoundNames(campos[..i])
      invariant forall k :: k in datos ==> datos[k] == []
    {
      assert BoundNames(campos[..i + 1]) == BoundNames(campos[..i]) + {campos[i].nombreVariable} by {
        assert campos[..i + 1][i] == campos[i];
        forall n | n in BoundNames(campos[..i + 1]) ensures n in BoundNames(campos[..i]) + {campos[i].nombreVariable} {
          var j :| 0 <= j < i + 1 && campos[..i + 1][j].nombreVariable == n;
          if j < i {
            assert campos[..i][j] == campos[..i + 1][j];
          }
        }
        forall n | n in BoundNames(campos[..i]) ensures n in BoundNames(campos[..i + 1]) {
          var j :| 0 <= j < i && campos[..i][j].nombreVariable == n;
          assert campos[..i + 1][j] == campos[..i][j];
        }
      }
      datos := datos[campos[i].nombreVariable := []];
      i := i + 1;
    }
    assert campos[..i] == campos;
  }

  /** With the initial values nothing is filled in, so the preview shows the
      fallback for every bound name. */
  lemma InicialesSinValor(datos: map<string, string>, campos: seq<CampoPlantilla>)
    requires datos.Keys == BoundNames(campos) && forall k :: k in datos ==> datos[k] == []
    ensures forall j :: 0 <= j < |campos| ==>
      TrimmedValue(datos, campos[j].nombreVariable).None?
  {
    forall j | 0 <= j < |campos| ensures TrimmedValue(datos, campos[j].nombreVariable).None? {
      var v := campos[j].nombreVariable;
      assert v in BoundNames(campos);
      assert !HasVisibleChar(datos[v]);
    }
  }

  /** `handleInputChange(nombreVariable, valor)`. */
  function HandleInputChange(datos: map<string, string>, nombreVariable: string, valor: string): (r: map<string, string>)
    ensures r.Keys == datos.Keys + {nombreVariable}
    ensures r[nombreVariable] == valor
    ensures forall k :: k in datos && k != nombreVariable ==> r[k] == datos[k]
  {
    datos[nombreVariable := valor]
  }

  /** Typing a value for one name changes the preview replacement of that
      name only. */
  lemma InputChangeLocal(datos: map<string, string>, v: string, x: string, w: string, policy: Fallback)
    requires w != v
    ensures Replacement(policy, w, HandleInputChange(datos, v, x)) == Replacement(policy, w, datos)
  {
    var d := HandleInputChange(datos, v, x);
    assert (w in d) == (w in datos);
  }

  /** The `type` of the input of a binding, by its field kind. */
  function InputType(campoTipo: string): (t: string)
    ensures t == "date" <==> campoTipo == "fecha"
    ensures t == "number" <==> campoTipo == "numero"
    ensures t == "text" <==> campoTipo != "fecha" && campoTipo != "numero"
  {
    if campoTipo == "fecha" then "date"
    else if campoTipo == "numero" then "number"
    else "text"
  }
}
