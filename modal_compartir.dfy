/** The share dialog: the list of selected users and the share action. */
module ModalCompartir {
  import opened Types
  import opened Seqs

  /** `prev.filter(uid => uid !== id)`. */
  function Without(xs: seq<int>, id: int): (r: seq<int>)
    ensures forall x :: x in r <==> x in xs && x != id
    ensures forall x :: multiset(r)[x] == if x != id then multiset(xs)[x] else 0
    ensures IsSubsequence(r, xs)
  {
    Filter(xs, (x: int) => x != id)
  }

  /** `toggleUsuario`: remove every occurrence of a selected user, append an
      unselected one. */
  function ToggleUsuario(xs: seq<int>, id: int): (r: seq<int>)
    ensures id in xs ==> r == Without(xs, id)
    ensures id !in xs ==> r == xs + [id]
  {
    if id in xs then Without(xs, id) else xs + [id]
  }

  /** The membership of `id` flips and nobody else's changes. */
  lemma ToggleMembership(xs: seq<int>, id: int)
    ensures id in ToggleUsuario(xs, id) <==> id !in xs
    ensures forall y :: y != id ==> (y in ToggleUsuario(xs, id) <==> y in xs)
  {
  }

  /** A list without repetitions stays without repetitions. */
  lemma ToggleDistinct(xs: seq<int>, id: int)
    requires Distinct(xs)
    ensures Distinct(ToggleUsuario(xs, id))
  {
    if id in xs {
      FilterDistinct(xs, (x: int) => x != id);
    } else {
      var r := xs + [id];
      forall i, j | 0 <= i < j < |r| ensures r[i] != r[j] {
        if j == |xs| {
          assert r[i] == xs[i];
        }
      }
    }
  }

  /** Toggling twice restores the set of selected users, and the list itself
      when the user was not selected. */
  lemma ToggleTwice(xs: seq<int>, id: int)
    ensures forall y :: y in ToggleUsuario(ToggleUsuario(xs, id), id) <==> y in xs
    ensures id !in xs ==> ToggleUsuario(ToggleUsuario(xs, id), id) == xs
  {
    ToggleMembership(xs, id);
    ToggleMembership(ToggleUsuario(xs, id), id);
    if id !in xs {
      var ys := xs + [id];
      FilterAll(xs, (x: int) => x != id);
      assert Filter(ys, (x: int) => x != id) == Filter(xs, (x: int) => x != id) by {
        FilterSnocDropped(xs, id);
      }
    }
  }

  lemma {:induction false} FilterSnocDropped(xs: seq<int>, id: int)
    ensures Filter(xs + [id], (x: int) => x != id) == Filter(xs, (x: int) => x != id)
    decreases |xs|
  {
    if xs == [] {
      assert [] + [id] == [id];
      assert [id][1..] == [];
    } else {
      assert (xs + [id])[1..] == xs[1..] + [id];
      FilterSnocDropped(xs[1..], id);
    }
  }

  datatype Permisos = Lectura | Edicion

  /** What `compartirPlantilla` is called with. */
  datatype ShareRequest = ShareRequest(plantillaId: int, permisos: Permisos, usuarios: seq<int>)

  const Compartida: string := "¡Plantilla compartida!"
  const ErrorCompartir: string := "Error al compartir la plantilla"

  class Modal {
    const plantillaId: int
    var usuariosSeleccionados: seq<int>
    var permisos: Permisos
    var mensaje: Option<string>
    var cargando: bool

    constructor(plantillaId: int)
      ensures this.plantillaId == plantillaId
      ensures usuariosSeleccionados == [] && permisos == Lectura && mensaje.None? && !cargando
    {
      this.plantillaId := plantillaId;
      usuariosSeleccionados := [];
      permisos := Lectura;
      mensaje := None;
      cargando := false;
    }

    /** The effect run when the dialog opens. */
    method Abrir()
      modifies this
      ensures usuariosSeleccionados == [] && mensaje.None?
      ensures permisos == old(permisos) && cargando == old(cargando)
    {
      mensaje := None;
      usuariosSeleccionados := [];
    }

    method Toggle(id: int)
      modifies this
      ensures usuariosSeleccionados == ToggleUsuario(old(usuariosSeleccionados), id)
      ensures permisos == old(permisos) && mensaje == old(mensaje) && cargando == old(cargando)
    {
      usuariosSeleccionados := ToggleUsuario(usuariosSeleccionados, id);
    }

    /** `handleCompartir` up to the call: nothing happens with nobody
        selected. */
    method IniciarCompartir() returns (request: Option<ShareRequest>)
      modifies this
      ensures old(usuariosSeleccionados) == [] ==>
        request.None? && mensaje == old(mensaje) && cargando == old(cargando)
      ensures old(usuariosSeleccionados) != [] ==>
        request == Some(ShareRequest(plantillaId, permisos, usuariosSeleccionados)) && mensaje.None? && cargando
      ensures usuariosSeleccionados == old(usuariosSeleccionados) && permisos == old(permisos)
    {
      if |usuariosSeleccionados| == 0 {
        return None;
      }
      cargando := true;
      mensaje := None;
      request := Some(ShareRequest(plantillaId, permisos, usuariosSeleccionados));
    }

    /** `handleCompartir` after the call: a success clears the selection and
        then reloads the shared users, whose failure lands in the same catch
        as a failed share. `recargaOk` is the reload's outcome; with a falsy
        template id the reload returns at once and cannot fail. */
    method TerminarCompartir(ok: bool, recargaOk: bool)
      modifies this
      ensures ok ==> usuariosSeleccionados == []
      ensures !ok ==> usuariosSeleccionados == old(usuariosSeleccionados)
      ensures mensaje == Some(if ok && (recargaOk || plantillaId == 0) then Compartida else ErrorCompartir)
      ensures !cargando && permisos == old(permisos)
    {
      if ok {
        mensaje := Some(Compartida);
        usuariosSeleccionados := [];
        if plantillaId != 0 && !recargaOk {
          mensaje := Some(ErrorCompartir);
        }
      } else {
        mensaje := Some(ErrorCompartir);
      }
      cargando := false;
    }

    /** The two-second timer after a share blanks the message. */
    method MensajeExpirado()
      modifies this
      ensures mensaje == Some([])
      ensures usuariosSeleccionados == old(usuariosSeleccionados) && permisos == old(permisos) && cargando == old(cargando)
    {
      mensaje := Some([]);
    }
  }
}
