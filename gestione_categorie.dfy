/** The category editor of src/components/GestioneCategorie.tsx: a local copy of the
    category list, the "new category" input, the inline edit state, and the
    `onUpdateCategorie` callback that receives every list the editor stores. */
module GestioneCategorie {
  import opened Wrappers
  import opened Types
  import opened Text
  import opened Forms
  import Lists

  /** The list `handleAddCategoria` builds: the trimmed name appended with a fresh
      identifier, or nothing when the name is blank. */
  function AddCategoria(cs: seq<Categoria>, nome: string, id: string): (r: Option<seq<Categoria>>)
    ensures r.None? <==> Blank(nome)
    ensures r.Some? ==> |r.value| == |cs| + 1 && r.value[..|cs|] == cs
    ensures r.Some? ==> r.value[|cs|] == Categoria(id, Trim(nome))
    ensures r.Some? ==> r.value[|cs|].nome != "" && IsTrimmed(r.value[|cs|].nome)
  {
    if Blank(nome) then None else Some(cs + [Categoria(id, Trim(nome))])
  }

  /** `{ ...categoria, nome }`. */
  function Renamed(nome: string): Categoria -> Categoria {
    (c: Categoria) => c.(nome := nome)
  }

  /** The list `handleSaveEdit` builds: only the name of the matching categories
      changes, to the trimmed input; nothing when the input is blank. */
  function SaveCategoria(cs: seq<Categoria>, id: string, nome: string): (r: Option<seq<Categoria>>)
    ensures r.None? <==> Blank(nome)
    ensures r.Some? ==> Lists.Keys(r.value, CategoriaId) == Lists.Keys(cs, CategoriaId)
    ensures r.Some? ==> forall i :: 0 <= i < |cs| ==>
      r.value[i] == if cs[i].id == id then Categoria(id, Trim(nome)) else cs[i]
  {
    if Blank(nome) then None
    else
      Lists.ReplaceKeyKeepsKeys(cs, CategoriaId, id, Renamed(Trim(nome)));
      Some(Lists.ReplaceKey(cs, CategoriaId, id, Renamed(Trim(nome))))
  }

  /** Deleting a freshly added category by its identifier restores the list. */
  lemma DeleteUndoesAdd(cs: seq<Categoria>, nome: string, id: string)
    requires !Blank(nome)
    requires forall i :: 0 <= i < |cs| ==> cs[i].id != id
    ensures Lists.RemoveKey(AddCategoria(cs, nome, id).value, CategoriaId, id) == cs
  {
    var c := Categoria(id, Trim(nome));
    assert AddCategoria(cs, nome, id).value == cs + [c];
    Lists.RemoveKeyAfterAppend(cs, c, CategoriaId);
  }

  /** Deleting a category after renaming it is the same as deleting it unrenamed. */
  lemma DeleteAfterSave(cs: seq<Categoria>, id: string, nome: string)
    requires !Blank(nome)
    ensures Lists.RemoveKey(SaveCategoria(cs, id, nome).value, CategoriaId, id) == Lists.RemoveKey(cs, CategoriaId, id)
  {
    Lists.RemoveKeyAfterReplace(cs, CategoriaId, id, Renamed(Trim(nome)));
  }

  /** Saving the same rename twice stores the same list as saving it once. */
  lemma SaveIdempotent(cs: seq<Categoria>, id: string, nome: string)
    requires !Blank(nome)
    ensures SaveCategoria(SaveCategoria(cs, id, nome).value, id, nome) == SaveCategoria(cs, id, nome)
  {
    Lists.ReplaceKeyIdempotent(cs, CategoriaId, id, Renamed(Trim(nome)));
  }

  class Gestione {
    var categorie: seq<Categoria>
    var nomeCategoria: string
    var editMode: Option<string>
    var editNome: string
    /** Every list passed to `onUpdateCategorie`, oldest first. */
    var published: seq<seq<Categoria>>

    /** The parent always holds the list the editor stored last. */
    ghost predicate Valid()
      reads this
    {
      published == [] || published[|published| - 1] == categorie
    }

    constructor (categorieList: seq<Categoria>)
      ensures Valid()
      ensures categorie == categorieList && published == []
      ensures nomeCategoria == "" && editMode == None && editNome == ""
    {
      categorie := categorieList;
      nomeCategoria := "";
      editMode := None;
      editNome := "";
      published := [];
    }

    /** The `onChange` handler of the "new category" input. */
    method SetNomeCategoria(nome: string)
      requires Valid()
      modifies this
      ensures Valid()
      ensures nomeCategoria == nome
      ensures categorie == old(categorie) && published == old(published)
      ensures editMode == old(editMode) && editNome == old(editNome)
    {
      nomeCategoria := nome;
    }

    /** `handleAddCategoria`, with `freshId` standing for the `uuidv4()` result. */
    method HandleAddCategoria(freshId: string)
      requires Valid()
      modifies this
      ensures Valid()
      ensures Blank(old(nomeCategoria)) ==> unchanged(this)
      ensures !Blank(old(nomeCategoria)) ==>
        && categorie == old(categorie) + [Categoria(freshId, Trim(old(nomeCategoria)))]
        && published == old(published) + [categorie]
        && nomeCategoria == ""
        && editMode == old(editMode) && editNome == old(editNome)
    {
      if Blank(nomeCategoria) {
        return;
      }
      var nuova := Categoria(freshId, Trim(nomeCategoria));
      categorie := categorie + [nuova];
      published := published + [categorie];
      assert published[|published| - 1] == categorie;
      nomeCategoria := "";
    }

    /** `handleDeleteCategoria`. */
    method HandleDeleteCategoria(id: string)
      requires Valid()
      modifies this
      ensures Valid()
      ensures categorie == Lists.RemoveKey(old(categorie), CategoriaId, id)
      ensures published == old(published) + [categorie]
      ensures nomeCategoria == old(nomeCategoria) && editMode == old(editMode) && editNome == old(editNome)
    {
      categorie := Lists.RemoveKey(categorie, CategoriaId, id);
      published := published + [categorie];
    }

    /** `handleStartEdit`. */
    method HandleStartEdit(c: Categoria)
      requires Valid()
      modifies this
      ensures Valid()
      ensures editMode == Some(c.id) && editNome == c.nome
      ensures categorie == old(categorie) && published == old(published) && nomeCategoria == old(nomeCategoria)
    {
      editMode := Some(c.id);
      editNome := c.nome;
    }

    /** The `onChange` handler of the inline edit input. */
    method SetEditNome(nome: string)
      requires Valid()
      modifies this
      ensures Valid()
      ensures editNome == nome
      ensures categorie == old(categorie) && published == old(published)
      ensures nomeCategoria == old(nomeCategoria) && editMode == old(editMode)
    {
      editNome := nome;
    }

    /** `handleSaveEdit`. */
    method HandleSaveEdit(id: string)
      requires Valid()
      modifies this
      ensures Valid()
      ensures Blank(old(editNome)) ==> unchanged(this)
      ensures !Blank(old(editNome)) ==>
        && categorie == SaveCategoria(old(categorie), id, old(editNome)).value
        && published == old(published) + [categorie]
        && editMode == None
        && editNome == old(editNome) && nomeCategoria == old(nomeCategoria)
    {
      var r := SaveCategoria(categorie, id, editNome);
      if r.None? {
        return;
      }
      categorie := r.value;
      published := published + [categorie];
      editMode := None;
    }
  }
}
