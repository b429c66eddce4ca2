/** The template list screen: the optimistic favourite toggle and its
    revert, the duplicate payload, and the per-template in-flight sets that
    guard both actions against repeated clicks. */
module ListaPlantillas {
  import opened Types
  import Preview

  /** `es_favorito` as a condition: an absent flag is falsy. */
  function EsFavorito(p: PlantillaDocumento): bool {
    p.esFavorito == Some(true)
  }

  /** The optimistic update: `es_favorito: !p.es_favorito` on the entries
      with the given id. */
  function ToggleFavorito(ps: seq<PlantillaDocumento>, id: int): (r: seq<PlantillaDocumento>)
    ensures |r| == |ps|
    ensures forall i :: 0 <= i < |ps| && ps[i].id != id ==> r[i] == ps[i]
    ensures forall i :: 0 <= i < |ps| && ps[i].id == id ==>
      r[i] == ps[i].(esFavorito := Some(!EsFavorito(ps[i]))) && EsFavorito(r[i]) != EsFavorito(ps[i])
  {
    seq(|ps|, i requires 0 <= i < |ps| =>
      if ps[i].id == id then ps[i].(esFavorito := Some(!EsFavorito(ps[i]))) else ps[i])
  }

  /** The revert after a failed call: the entries with the given id get back
      the flag captured before the toggle. */
  function RevertFavorito(ps: seq<PlantillaDocumento>, id: int, capturado: Option<bool>): (r: seq<PlantillaDocumento>)
    ensures |r| == |ps|
    ensures forall i :: 0 <= i < |ps| && ps[i].id != id ==> r[i] == ps[i]
    ensures forall i :: 0 <= i < |ps| && ps[i].id == id ==> r[i] == ps[i].(esFavorito := capturado)
  {
    seq(|ps|, i requires 0 <= i < |ps| => if ps[i].id == id then ps[i].(esFavorito := capturado) else ps[i])
  }

  /** Toggle then revert gives the list back, when every entry with the id
      still carries the captured flag. */
  lemma ToggleRevert(ps: seq<PlantillaDocumento>, p: PlantillaDocumento)
    requires forall i :: 0 <= i < |ps| && ps[i].id == p.id ==> ps[i].esFavorito == p.esFavorito
    ensures RevertFavorito(ToggleFavorito(ps, p.id), p.id, p.esFavorito) == ps
  {
    var r := RevertFavorito(ToggleFavorito(ps, p.id), p.id, p.esFavorito);
    forall i | 0 <= i < |ps| ensures r[i] == ps[i] {
    }
  }

  /** The payload of `handleDuplicar`. */
  function DuplicarPayload(p: PlantillaDocumento): (r: CrearPlantillaData)
    ensures r.nombre == CopiaNombre(p.nombre)
    ensures r.descripcion == p.descripcion.GetOr("") && r.htmlConCampos == p.htmlConCampos.GetOr("")
    ensures r.tipoId == TipoId(p.tipo, p.tipoInfo)
    ensures p.camposAsociados.None? ==> r.campos == []
    ensures p.camposAsociados.Some? ==> |r.campos| == |p.camposAsociados.value|
    ensures p.camposAsociados.Some? ==> forall i :: 0 <= i < |r.campos| ==>
      r.campos[i] == CampoRef(p.camposAsociados.value[i].campo, p.camposAsociados.value[i].nombreVariable)
  {
    CrearPlantillaData(
      CopiaNombre(p.nombre),
      p.descripcion.GetOr(""),
      p.htmlConCampos.GetOr(""),
      TipoId(p.tipo, p.tipoInfo),
      match p.camposAsociados
      case Some(cs) => ToCampoRefs(cs)
      case None => [])
  }

  /** `getPreviewHtml` of the preview dialog: the same fold and fallback as
      the template editor's. */
  method GetPreviewHtml(html: string, campos: seq<CampoPlantilla>, datos: map<string, string>) returns (preview: string)
    ensures preview == Preview.PreviewFold(html, campos, datos, Preview.HumanizedName)
  {
    preview := Preview.GetPreviewHtml(html, campos, datos, Preview.HumanizedName);
  }

  /** Which favourites call `handleFavorito` makes. */
  datatype FavoritoRequest = Agregar(id: int) | Quitar(id: int)

  const ErrorCargar: string := "Error al cargar plantillas"
  const ErrorDuplicar: string := "Error al duplicar la plantilla"
  const ErrorFavoritos: string := "Error al actualizar favoritos"

  /** The screen's state. Each asynchronous handler is split at its `await`
      into a start, which returns the request to send, and an end, which
      takes the outcome of that request. */
  class Pagina {
    var plantillas: seq<PlantillaDocumento>
    var favoritosCargando: set<int>
    var duplicandoPlantillas: set<int>
    var error: Option<string>

    constructor()
      ensures plantillas == [] && favoritosCargando == {} && duplicandoPlantillas == {} && error == None
    {
      plantillas := [];
      favoritosCargando := {};
      duplicandoPlantillas := {};
      error := None;
    }

    /** `cargarPlantillas` with the outcome of `getPlantillas`. */
    method CargarPlantillas(recibidas: Option<seq<PlantillaDocumento>>)
      modifies this
      ensures recibidas.Some? ==> plantillas == recibidas.value && error == old(error)
      ensures recibidas.None? ==> plantillas == old(plantillas) && error == Some(ErrorCargar)
      ensures favoritosCargando == old(favoritosCargando) && duplicandoPlantillas == old(duplicandoPlantillas)
    {
      if recibidas.Some? {
        plantillas := recibidas.value;
      } else {
        error := Some(ErrorCargar);
      }
    }

    /** `handleDuplicar` up to the call: nothing happens while a duplicate of
        the same template is in flight. */
    method IniciarDuplicado(p: PlantillaDocumento) returns (payload: Option<CrearPlantillaData>)
      modifies this
      ensures old(p.id in duplicandoPlantillas) ==>
        payload.None? && duplicandoPlantillas == old(duplicandoPlantillas) && error == old(error)
      ensures old(p.id !in duplicandoPlantillas) ==>
        payload == Some(DuplicarPayload(p)) && duplicandoPlantillas == old(duplicandoPlantillas) + {p.id} && error.None?
      ensures plantillas == old(plantillas) && favoritosCargando == old(favoritosCargando)
    {
      if p.id in duplicandoPlantillas {
        return None;
      }
      duplicandoPlantillas := duplicandoPlantillas + {p.id};
      error := None;
      payload := Some(DuplicarPayload(p));
    }

    /** `handleDuplicar` after the call: on success the list is reloaded, on
        failure the error is shown; either way only this id leaves the set. */
    method TerminarDuplicado(p: PlantillaDocumento, duplicado: bool, recarga: Option<seq<PlantillaDocumento>>)
      modifies this
      ensures duplicandoPlantillas == old(duplicandoPlantillas) - {p.id}
      ensures !duplicado ==> plantillas == old(plantillas) && error == Some(ErrorDuplicar)
      ensures duplicado && recarga.Some? ==> plantillas == recarga.value && error == old(error)
      ensures duplicado && recarga.None? ==> plantillas == old(plantillas) && error == Some(ErrorCargar)
      ensures favoritosCargando == old(favoritosCargando)
    {
      if duplicado {
        CargarPlantillas(recarga);
      } else {
        error := Some(ErrorDuplicar);
      }
      duplicandoPlantillas := duplicandoPlantillas - {p.id};
    }

    /** `handleFavorito` up to the call: the optimistic toggle, and the call
        chosen by the flag of the template as it was clicked. */
    method IniciarFavorito(p: PlantillaDocumento) returns (request: Option<FavoritoRequest>)
      modifies this
      ensures old(p.id in favoritosCargando) ==>
        request.None? && plantillas == old(plantillas) && favoritosCargando == old(favoritosCargando)
      ensures old(p.id !in favoritosCargando) ==>
        && favoritosCargando == old(favoritosCargando) + {p.id}
        && plantillas == ToggleFavorito(old(plantillas), p.id)
        && request == Some(if EsFavorito(p) then Quitar(p.id) else Agregar(p.id))
      ensures duplicandoPlantillas == old(duplicandoPlantillas) && error == old(error)
    {
      if p.id in favoritosCargando {
        return None;
      }
      favoritosCargando := favoritosCargando + {p.id};
      plantillas := ToggleFavorito(plantillas, p.id);
      request := Some(if EsFavorito(p) then Quitar(p.id) else Agregar(p.id));
    }

    /** `handleFavorito` after the call: a failure reverts the flag to the
        captured one and shows the error; only this id leaves the set. */
    method TerminarFavorito(p: PlantillaDocumento, ok: bool)
      modifies this
      ensures favoritosCargando == old(favoritosCargando) - {p.id}
      ensures ok ==> plantillas == old(plantillas) && error == old(error)
      ensures !ok ==> plantillas == RevertFavorito(old(plantillas), p.id, p.esFavorito) && error == Some(ErrorFavoritos)
      ensures duplicandoPlantillas == old(duplicandoPlantillas)
    {
      if !ok {
        plantillas := RevertFavorito(plantillas, p.id, p.esFavorito);
        error := Some(ErrorFavoritos);
      }
      favoritosCargando := favoritosCargando - {p.id};
    }

    /** A click on a template's star whose call fails leaves the list and
        the in-flight set as they were. */
    method FavoritoFallido(p: PlantillaDocumento)
      modifies this
      requires p.id !in favoritosCargando
      requires forall i :: 0 <= i < |plantillas| && plantillas[i].id == p.id ==> plantillas[i].esFavorito == p.esFavorito
      ensures plantillas == old(plantillas) && favoritosCargando == old(favoritosCargando)
      ensures error == Some(ErrorFavoritos)
    {
      var request := IniciarFavorito(p);
      TerminarFavorito(p, false);
      ToggleRevert(old(plantillas), p);
    }
  }
}
