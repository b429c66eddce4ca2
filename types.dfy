/** The records of frontend/src/types/index.ts that the placeholder engine
    reads and produces. Field names follow the wire names in camelCase. */
module Types {

  datatype Option<+T> = None | Some(value: T) {
    /** `x || d` / `x ?? d` for an optional value. */
    function GetOr(d: T): T {
      match this
      case Some(v) => v
      case None => d
    }
  }

  /** `tipo_dato: 'texto' | 'fecha' | 'numero'`. */
  datatype TipoDato = Texto | Fecha | Numero

  /** A field that can be bound to placeholders (`CampoDisponible`). */
  datatype CampoDisponible = CampoDisponible(id: int, nombre: string, tipoDato: TipoDato)

  /** A stored binding of a field to a placeholder name (`CampoPlantilla`). */
  datatype CampoPlantilla = CampoPlantilla(
    id: int,
    campo: int,
    nombreVariable: string,
    campoNombre: string,
    campoTipo: string)

  /** One entry of `CrearPlantillaData.campos`: `{ campo_id, nombre_variable }`. */
  datatype CampoRef = CampoRef(campoId: int, nombreVariable: string)

  /** `TipoPlantillaDocumento`; also the shape of `tipo_info`. */
  datatype TipoPlantillaDocumento = TipoPlantillaDocumento(id: int, nombre: string)

  /** The payload sent to create (or duplicate) a template. */
  datatype CrearPlantillaData = CrearPlantillaData(
    nombre: string,
    descripcion: string,
    htmlConCampos: string,
    tipoId: Option<int>,
    campos: seq<CampoRef>)

  /** `campos_asociados.map(campo => ({ campo_id: campo.campo, nombre_variable: campo.nombre_variable }))`. */
  function ToCampoRefs(cs: seq<CampoPlantilla>): (r: seq<CampoRef>)
    ensures |r| == |cs|
    ensures forall i :: 0 <= i < |cs| ==> r[i].campoId == cs[i].campo && r[i].nombreVariable == cs[i].nombreVariable
  {
    seq(|cs|, i requires 0 <= i < |cs| => CampoRef(cs[i].campo, cs[i].nombreVariable))
  }

  /** A stored template as the list screen receives it. The optional fields
      are the ones the screens read defensively (`|| ''`, `Array.isArray`,
      `?.id`, the optional `es_favorito`). */
  datatype PlantillaDocumento = PlantillaDocumento(
    id: int,
    nombre: string,
    descripcion: Option<string>,
    htmlConCampos: Option<string>,
    tipo: Option<TipoPlantillaDocumento>,
    tipoInfo: Option<TipoPlantillaDocumento>,
    camposAsociados: Option<seq<CampoPlantilla>>,
    esFavorito: Option<bool>)

  /** `tipo?.id || tipo_info?.id`: the first id that is present and not 0
      (0 is falsy), or none. */
  function TipoId(tipo: Option<TipoPlantillaDocumento>, tipoInfo: Option<TipoPlantillaDocumento>): (r: Option<int>)
    ensures r.Some? ==> r.value != 0
    ensures r.Some? <==> (tipo.Some? && tipo.value.id != 0) || (tipoInfo.Some? && tipoInfo.value.id != 0)
    ensures tipo.Some? && tipo.value.id != 0 ==> r == Some(tipo.value.id)
    ensures r.Some? ==> (tipo.Some? && r.value == tipo.value.id) || (tipoInfo.Some? && r.value == tipoInfo.value.id)
  {
    if tipo.Some? && tipo.value.id != 0 then Some(tipo.value.id)
    else if tipoInfo.Some? && tipoInfo.value.id != 0 then Some(tipoInfo.value.id)
    else None
  }

  const CopiaSufijo: string := " (Copia)"

  /** The name of a duplicated template. */
  function CopiaNombre(nombre: string): (r: string)
    ensures |r| == |nombre| + |CopiaSufijo|
    ensures r[..|nombre|] == nombre && r[|nombre|..] == CopiaSufijo
  {
    nombre + CopiaSufijo
  }
}
