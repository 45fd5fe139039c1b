/** The catalog entities. `Espositore` is the exhibitor record of
    src/types/espositore.ts in its newer, superset shape; `EspositoreData` is
    `Omit<Espositore, 'id'>`, the payload the admin forms hand to their callbacks. */
module Types {
  import opened Wrappers

  datatype Espositore = Espositore(
    id: string,
    name: string,
    description: string,
    logoUrl: string,
    website: Option<string>,
    phoneNumber: Option<string>,
    email: Option<string>,
    fairLocation: Option<string>,
    category: Option<string>,
    images: Option<seq<string>>,
    fiere: Option<seq<string>>,
    categories: Option<seq<string>>)

  datatype EspositoreData = EspositoreData(
    name: string,
    description: string,
    logoUrl: string,
    website: Option<string>,
    phoneNumber: Option<string>,
    email: Option<string>,
    fairLocation: Option<string>,
    category: Option<string>,
    images: Option<seq<string>>,
    fiere: Option<seq<string>>,
    categories: Option<seq<string>>)

  /** `{ ...data, id }`. */
  function WithId(d: EspositoreData, id: string): (e: Espositore)
    ensures e.id == id && DataOf(e) == d
  {
    Espositore(id, d.name, d.description, d.logoUrl, d.website, d.phoneNumber, d.email,
               d.fairLocation, d.category, d.images, d.fiere, d.categories)
  }

  /** Every field but the identifier. */
  function DataOf(e: Espositore): EspositoreData {
    EspositoreData(e.name, e.description, e.logoUrl, e.website, e.phoneNumber, e.email,
                   e.fairLocation, e.category, e.images, e.fiere, e.categories)
  }

  function EspositoreId(e: Espositore): string { e.id }

  /** A fair: identifier, name and a free-text date range. */
  datatype Fiera = Fiera(id: string, nome: string, data: string)

  function FieraId(f: Fiera): string { f.id }

  /** A category: identifier and name. */
  datatype Categoria = Categoria(id: string, nome: string)

  function CategoriaId(c: Categoria): string { c.id }

  /** The `{ value, label }` option shape of the selection widget (`label` is a Dafny
      keyword, hence `labelText`). */
  datatype SelectOption = SelectOption(value: string, labelText: string)
}
