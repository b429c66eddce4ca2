/** The rich-text editor that turns selected text into placeholders. The
    document is a flat character sequence and the selection a pair of
    positions in it. */
module EditorDocumento {
  import opened Text
  import opened Types
  import opened Placeholder

  /** A binding made in the editor (`CampoAsignado`). */
  datatype CampoAsignado = CampoAsignado(campoId: int, nombreVariable: string, textoSeleccionado: string)

  /** `doc` with `[from, to)` replaced by `text`. */
  function ReplaceRange(doc: string, from: nat, to: nat, text: string): (r: string)
    requires from <= to <= |doc|
    ensures |r| == |doc| - (to - from) + |text|
  {
    doc[..from] + text + doc[to..]
  }

  /** The replacement keeps what precedes the range, holds `text` in its
      place and keeps what follows it. */
  lemma ReplaceRangeParts(doc: string, from: nat, to: nat, text: string)
    requires from <= to <= |doc|
    ensures ReplaceRange(doc, from, to, text)[..from] == doc[..from]
    ensures ReplaceRange(doc, from, to, text)[from..from + |text|] == text
    ensures ReplaceRange(doc, from, to, text)[from + |text|..] == doc[to..]
  {
    var r := ReplaceRange(doc, from, to, text);
    assert r == doc[..from] + text + doc[to..];
  }

  /** Putting the removed text back where the replacement went restores the
      document. */
  lemma ReplaceRangeUndo(doc: string, from: nat, to: nat, text: string)
    requires from <= to <= |doc|
    ensures ReplaceRange(ReplaceRange(doc, from, to, text), from, from + |text|, doc[from..to]) == doc
  {
    var r := ReplaceRange(doc, from, to, text);
    ReplaceRangeParts(doc, from, to, text);
    assert doc == doc[..from] + doc[from..to] + doc[to..];
  }

  /** Deleting a range and inserting at the collapsed cursor replaces the
      range. */
  lemma ReplaceRangeDeleteInsert(doc: string, from: nat, to: nat, text: string)
    requires from <= to <= |doc|
    ensures from <= |ReplaceRange(doc, from, to, [])|
    ensures ReplaceRange(ReplaceRange(doc, from, to, []), from, from, text) == ReplaceRange(doc, from, to, text)
  {
    var d := ReplaceRange(doc, from, to, []);
    assert d == doc[..from] + doc[to..];
    assert d[..from] == doc[..from] && d[from..] == doc[to..];
  }

  /** Once the name is an identifier, the highlighting pattern matches the
      inserted token where it was inserted. */
  lemma AssignedTokenHighlighted(doc: string, from: nat, to: nat, name: string)
    requires from <= to <= |doc| && IsIdentifier(name)
    ensures MatchAtFront(ReplaceRange(doc, from, to, Token(name))[from..]) == Some(name)
  {
    var r := ReplaceRange(doc, from, to, Token(name));
    assert r[from..] == Token(name) + doc[to..];
    MatchAtFrontToken(name, doc[to..]);
  }

  /** What `onSelectionUpdate` schedules. */
  datatype PromptAction = ShowPrompt | HidePrompt | KeepPrompt

  /** The prompt opens for a non-blank selection longer than one UTF-16
      code unit, and closes when the selection is empty. */
  function SelectionAction(doc: string, from: nat, to: nat): (a: PromptAction)
    requires from <= to <= |doc|
    ensures a == ShowPrompt <==> from != to && HasVisibleChar(doc[from..to]) && Utf16Length(doc[from..to]) > 1
    ensures a == HidePrompt <==> from == to
    ensures to - from > 1 ==> (a == ShowPrompt <==> HasVisibleChar(doc[from..to]))
  {
    if from != to then
      var texto := doc[from..to];
      TrimEmptyIffBlank(texto);
      if Trim(texto) != [] && Utf16Length(texto) > 1 then ShowPrompt else KeepPrompt
    else HidePrompt
  }

  /** A single character outside the Basic Multilingual Plane already has
      length 2, so selecting it alone opens the prompt; a single other
      character does not. */
  lemma SelectionSingleChar(doc: string, from: nat)
    requires from < |doc| && !IsWhitespace(doc[from])
    ensures SelectionAction(doc, from, from + 1) == ShowPrompt <==> doc[from] as int > 0xFFFF
  {
    var texto := doc[from..from + 1];
    assert texto == [doc[from]] && texto[1..] == [];
    assert HasVisibleChar(texto) by { assert !IsWhitespace(texto[0]); }
  }

  /** The outcome of `asignarCampo`. */
  datatype AssignOutcome =
    | MissingInput    // the alert: no field chosen or a blank name
    | EmptySelection  // nothing selected: nothing happens
    | Assigned

  class Editor {
    var doc: string
    var from: nat
    var to: nat
    var camposAsignados: seq<CampoAsignado>
    var campoSeleccionado: Option<int>
    var nombreVariable: string
    var mostrarModal: bool

    ghost predicate Valid()
      reads this
    {
      from <= to <= |doc|
    }

    constructor(textoInicial: string)
      ensures Valid()
      ensures doc == textoInicial && from == 0 && to == 0
      ensures camposAsignados == [] && campoSeleccionado.None? && nombreVariable == [] && !mostrarModal
    {
      doc := textoInicial;
      from := 0;
      to := 0;
      camposAsignados := [];
      campoSeleccionado := None;
      nombreVariable := [];
      mostrarModal := false;
    }

    /** The user moves the selection; the returned action is what the
        scheduled timer will do to the prompt. */
    method OnSelectionUpdate(newFrom: nat, newTo: nat) returns (action: PromptAction)
      requires Valid() && newFrom <= newTo <= |doc|
      modifies this
      ensures Valid() && from == newFrom && to == newTo
      ensures action == SelectionAction(doc, from, to)
      ensures doc == old(doc) && camposAsignados == old(camposAsignados) && mostrarModal == old(mostrarModal)
      ensures campoSeleccionado == old(campoSeleccionado) && nombreVariable == old(nombreVariable)
    {
      from, to := newFrom, newTo;
      action := SelectionAction(doc, from, to);
    }

    /** The scheduled timer fires. */
    method FireTimer(action: PromptAction)
      modifies this
      ensures action == ShowPrompt ==> mostrarModal
      ensures action == HidePrompt ==> !mostrarModal
      ensures action == KeepPrompt ==> mostrarModal == old(mostrarModal)
      ensures doc == old(doc) && from == old(from) && to == old(to) && camposAsignados == old(camposAsignados)
      ensures campoSeleccionado == old(campoSeleccionado) && nombreVariable == old(nombreVariable)
    {
      if action == ShowPrompt {
        mostrarModal := true;
      } else if action == HidePrompt {
        mostrarModal := false;
      }
    }

    /** The "assign manually" button: it opens the prompt for a non-blank
        selection and alerts otherwise. */
    method AbrirManual() returns (abierto: bool)
      requires Valid()
      modifies this
      ensures Valid()
      ensures abierto <==> from != to && HasVisibleChar(doc[from..to])
      ensures abierto ==> mostrarModal
      ensures !abierto ==> mostrarModal == old(mostrarModal)
      ensures doc == old(doc) && from == old(from) && to == old(to) && camposAsignados == old(camposAsignados)
      ensures campoSeleccionado == old(campoSeleccionado) && nombreVariable == old(nombreVariable)
    {
      abierto := false;
      if from != to {
        TrimEmptyIffBlank(doc[from..to]);
        if Trim(doc[from..to]) != [] {
          mostrarModal := true;
          abierto := true;
        }
      }
    }

    method SeleccionarCampo(id: Option<int>)
      modifies this
      ensures campoSeleccionado == id
      ensures doc == old(doc) && from == old(from) && to == old(to) && camposAsignados == old(camposAsignados)
      ensures nombreVariable == old(nombreVariable) && mostrarModal == old(mostrarModal)
    {
      campoSeleccionado := id;
    }

    method EscribirNombre(nombre: string)
      modifies this
      ensures nombreVariable == nombre
      ensures doc == old(doc) && from == old(from) && to == old(to) && camposAsignados == old(camposAsignados)
      ensures campoSeleccionado == old(campoSeleccionado) && mostrarModal == old(mostrarModal)
    {
      nombreVariable := nombre;
    }

    /** `deleteRange({ from, to })`: the selection collapses at `from`. */
    method DeleteRange()
      requires Valid()
      modifies this
      ensures Valid()
      ensures doc == ReplaceRange(old(doc), old(from), old(to), []) && from == old(from) && to == old(from)
      ensures camposAsignados == old(camposAsignados) && campoSeleccionado == old(campoSeleccionado)
      ensures nombreVariable == old(nombreVariable) && mostrarModal == old(mostrarModal)
    {
      doc := doc[..from] + doc[to..];
      to := from;
    }

    /** `insertContent(text)` at a collapsed selection: the cursor ends
        after the inserted text. */
    method InsertContent(text: string)
      requires Valid() && from == to
      modifies this
      ensures Valid()
      ensures doc == ReplaceRange(old(doc), old(from), old(from), text)
      ensures from == old(from) + |text| && to == from
      ensures camposAsignados == old(camposAsignados) && campoSeleccionado == old(campoSeleccionado)
      ensures nombreVariable == old(nombreVariable) && mostrarModal == old(mostrarModal)
    {
      doc := doc[..from] + text + doc[from..];
      from := from + |text|;
      to := from;
    }

    /** `asignarCampo`: the selected text becomes the token of the typed name
        (untrimmed and unchecked), and one binding is appended. */
    method AsignarCampo() returns (outcome: AssignOutcome)
      requires Valid()
      modifies this
      ensures Valid()
      ensures outcome == MissingInput <==>
        !(old(campoSeleccionado).Some? && old(campoSeleccionado).value != 0 && HasVisibleChar(old(nombreVariable)))
      ensures outcome == EmptySelection <==> outcome != MissingInput && old(from) == old(to)
      ensures outcome != Assigned ==>
        && doc == old(doc) && from == old(from) && to == old(to) && camposAsignados == old(camposAsignados)
        && campoSeleccionado == old(campoSeleccionado) && nombreVariable == old(nombreVariable)
        && mostrarModal == old(mostrarModal)
      ensures outcome == Assigned ==>
        && doc == ReplaceRange(old(doc), old(from), old(to), Token(old(nombreVariable)))
        && from == to == old(from) + |Token(old(nombreVariable))|
        && camposAsignados == old(camposAsignados)
             + [CampoAsignado(old(campoSeleccionado).value, old(nombreVariable), old(doc)[old(from)..old(to)])]
        && campoSeleccionado.None? && nombreVariable == [] && !mostrarModal
    {
      TrimEmptyIffBlank(nombreVariable);
      if campoSeleccionado.None? || campoSeleccionado.value == 0 || Trim(nombreVariable) == [] {
        return MissingInput;
      }
      if from == to {
        return EmptySelection;
      }
      var textoSeleccionado := doc[from..to];
      var variable := Token(nombreVariable);
      ReplaceRangeDeleteInsert(doc, from, to, variable);
      DeleteRange();
      InsertContent(variable);
      camposAsignados := camposAsignados + [CampoAsignado(campoSeleccionado.value, nombreVariable, textoSeleccionado)];
      campoSeleccionado := None;
      nombreVariable := [];
      mostrarModal := false;
      outcome := Assigned;
    }
  }
}
