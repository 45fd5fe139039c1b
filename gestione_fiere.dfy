/** The fair editor of src/components/GestioneFiere.tsx: a local copy of the fair
    list, the "new fair" inputs, the inline edit state, and the `onUpdateFiere`
    callback that receives every list the editor stores. */
module GestioneFiere {
  import opened Wrappers
  import opened Types
  import opened Text
  import opened Forms
  import Lists

  /** The list `handleAddFiera` builds: `[...fiere, { id, nome, data }]` with the
      trimmed inputs, or nothing when either input is blank. */
  function AddFiera(fs: seq<Fiera>, nome: string, data: string, id: string): (r: Option<seq<Fiera>>)
    ensures r.None? <==> Blank(nome) || Blank(data)
    ensures r.Some? ==> |r.value| == |fs| + 1 && r.value[..|fs|] == fs
    ensures r.Some? ==> r.value[|fs|] == Fiera(id, Trim(nome), Trim(data))
    ensures r.Some? ==> r.value[|fs|].nome != "" && IsTrimmed(r.value[|fs|].nome)
  {
    if Blank(nome) || Blank(data) then None
    else Some(fs + [Fiera(id, Trim(nome), Trim(data))])
  }

  /** `{ ...fiera, nome, data }`. */
  function Renamed(nome: string, data: string): Fiera -> Fiera {
    (f: Fiera) => f.(nome := nome, data := data)
  }

  /** The list `handleSaveEdit` builds: every fair with the edited identifier gets the
      trimmed name and date and keeps its identifier and position; nothing when
      either input is blank. */
  function SaveFiera(fs: seq<Fiera>, id: string, nome: string, data: string): (r: Option<seq<Fiera>>)
    ensures r.None? <==> Blank(nome) || Blank(data)
    ensures r.Some? ==> Lists.Keys(r.value, FieraId) == Lists.Keys(fs, FieraId)
    ensures r.Some? ==> forall i :: 0 <= i < |fs| ==>
      r.value[i] == if fs[i].id == id then Fiera(id, Trim(nome), Trim(data)) else fs[i]
  {
    if Blank(nome) || Blank(data) then None
    else
      Lists.ReplaceKeyKeepsKeys(fs, FieraId, id, Renamed(Trim(nome), Trim(data)));
      Some(Lists.ReplaceKey(fs, FieraId, id, Renamed(Trim(nome), Trim(data))))
  }

  /** Deleting a freshly added fair by its identifier restores the list. */
  lemma DeleteUndoesAdd(fs: seq<Fiera>, nome: string, data: string, id: string)
    requires !Blank(nome) && !Blank(data)
    requires forall i :: 0 <= i < |fs| ==> fs[i].id != id
    ensures Lists.RemoveKey(AddFiera(fs, nome, data, id).value, FieraId, id) == fs
  {
    var f := Fiera(id, Trim(nome), Trim(data));
    assert AddFiera(fs, nome, data, id).value == fs + [f];
    Lists.RemoveKeyAfterAppend(fs, f, FieraId);
  }

  /** Deleting a fair after editing it is the same as deleting it unedited. */
  lemma DeleteAfterSave(fs: seq<Fiera>, id: string, nome: string, data: string)
    requires !Blank(nome) && !Blank(data)
    ensures Lists.RemoveKey(SaveFiera(fs, id, nome, data).value, FieraId, id) == Lists.RemoveKey(fs, FieraId, id)
  {
    Lists.RemoveKeyAfterReplace(fs, FieraId, id, Renamed(Trim(nome), Trim(data)));
  }

  /** Saving the same edit twice stores the same list as saving it once. */
  lemma SaveIdempotent(fs: seq<Fiera>, id: string, nome: string, data: string)
    requires !Blank(nome) && !Blank(data)
    ensures SaveFiera(SaveFiera(fs, id, nome, data).value, id, nome, data) == SaveFiera(fs, id, nome, data)
  {
    Lists.ReplaceKeyIdempotent(fs, FieraId, id, Renamed(Trim(nome), Trim(data)));
  }

  class Gestione {
    var fiere: seq<Fiera>
    var nomeFiera: string
    var dataFiera: string
    var editMode: Option<string>
    var editNome: string
    var editData: string
    /** Every list passed to `onUpdateFiere`, oldest first. */
    var published: seq<seq<Fiera>>

    /** The parent always holds the list the editor stored last. */
    ghost predicate Valid()
      reads this
    {
      published == [] || published[|published| - 1] == fiere
    }

    constructor (fiereList: seq<Fiera>)
      ensures Valid()
      ensures fiere == fiereList && published == []
      ensures nomeFiera == "" && dataFiera == "" && editMode == None && editNome == "" && editData == ""
    {
      fiere := fiereList;
      nomeFiera, dataFiera := "", "";
      editMode := None;
      editNome, editData := "", "";
      published := [];
    }

    /** The `onChange` handlers of the two "new fair" inputs. */
    method SetNuovaFiera(nome: string, data: string)
      requires Valid()
      modifies this
      ensures Valid()
      ensures nomeFiera == nome && dataFiera == data
      ensures fiere == old(fiere) && published == old(published) && editMode == old(editMode)
      ensures editNome == old(editNome) && editData == old(editData)
    {
      nomeFiera, dataFiera := nome, data;
    }

    /** `handleAddFiera`, with `freshId` standing for the `uuidv4()` result. */
    method HandleAddFiera(freshId: string)
      requires Valid()
      modifies this
      ensures Valid()
      ensures Blank(old(nomeFiera)) || Blank(old(dataFiera)) ==> unchanged(this)
      ensures !Blank(old(nomeFiera)) && !Blank(old(dataFiera)) ==>
        && fiere == old(fiere) + [Fiera(freshId, Trim(old(nomeFiera)), Trim(old(dataFiera)))]
        && published == old(published) + [fiere]
        && nomeFiera == "" && dataFiera == ""
        && editMode == old(editMode) && editNome == old(editNome) && editData == old(editData)
    {
      if Blank(nomeFiera) || Blank(dataFiera) {
        return;
      }
      var nuova := Fiera(freshId, Trim(nomeFiera), Trim(dataFiera));
      fiere := fiere + [nuova];
      published := published + [fiere];
      assert published[|published| - 1] == fiere;
      nomeFiera := "";
      dataFiera := "";
    }

    /** `handleDeleteFiera`. */
    method HandleDeleteFiera(id: string)
      requires Valid()
      modifies this
      ensures Valid()
      ensures fiere == Lists.RemoveKey(old(fiere), FieraId, id)
      ensures published == old(published) + [fiere]
      ensures nomeFiera == old(nomeFiera) && dataFiera == old(dataFiera)
      ensures editMode == old(editMode) && editNome == old(editNome) && editData == old(editData)
    {
      fiere := Lists.RemoveKey(fiere, FieraId, id);
      published := published + [fiere];
    }

    /** `handleStartEdit`: the row of `f` switches to edit mode with its values. */
    method HandleStartEdit(f: Fiera)
      requires Valid()
      modifies this
      ensures Valid()
      ensures editMode == Some(f.id) && editNome == f.nome && editData == f.data
      ensures fiere == old(fiere) && published == old(published)
      ensures nomeFiera == old(nomeFiera) && dataFiera == old(dataFiera)
    {
      editMode := Some(f.id);
      editNome := f.nome;
      editData := f.data;
    }

    /** The `onChange` handlers of the two inline edit inputs. */
    method SetModifica(nome: string, data: string)
      requires Valid()
      modifies this
      ensures Valid()
      ensures editNome == nome && editData == data
      ensures fiere == old(fiere) && published == old(published) && editMode == old(editMode)
      ensures nomeFiera == old(nomeFiera) && dataFiera == old(dataFiera)
    {
      editNome, editData := nome, data;
    }

    /** `handleSaveEdit`. */
    method HandleSaveEdit(id: string)
      requires Valid()
      modifies this
      ensures Valid()
      ensures Blank(old(editNome)) || Blank(old(editData)) ==> unchanged(this)
      ensures !Blank(old(editNome)) && !Blank(old(editData)) ==>
        && fiere == SaveFiera(old(fiere), id, old(editNome), old(editData)).value
        && published == old(published) + [fiere]
        && editMode == None
        && editNome == old(editNome) && editData == old(editData)
        && nomeFiera == old(nomeFiera) && dataFiera == old(dataFiera)
    {
      var r := SaveFiera(fiere, id, editNome, editData);
      if r.None? {
        return;
      }
      fiere := r.value;
      published := published + [fiere];
      editMode := None;
    }
  }
}
