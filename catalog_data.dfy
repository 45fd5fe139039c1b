/** The seed list of fairs (src/data/fiere.ts) and its projection to selection
    options. The identifiers come from ten `uuidv4()` calls at module load; they are
    a parameter here and nothing assumes them distinct. */
module FiereData {
  import opened Types
  import Lists

  const Nomi: seq<string> := [
    "Fiera Sposi Oggi Belluno", "Fiera Sposi Oggi Bologna", "Fiera Sposi Oggi Verona",
    "Fiera Sposi Oggi Padova", "Fiera Sposi Oggi Forlì-Cesena", "Fiera Sposi Oggi Treviso",
    "Fiera Sposi Oggi Bergamo", "Fiera Sposi Oggi Modena", "Fiera Sposi Oggi Vicenza",
    "Fiera Sposi Oggi Mantova"]

  const Date: seq<string> := [
    "21 e 22 settembre 2025", "27 e 28 settembre 2025", "4 e 5 ottobre 2025",
    "11 e 12 ottobre 2025", "25 e 26 ottobre 2025", "15 e 16 novembre 2025",
    "22 e 23 novembre 2025", "10 e 11 gennaio 2025", "17 e 18 gennaio 2025",
    "24 e 25 gennaio 2025"]

  /** The exported `fiere` list, given the ten generated identifiers. */
  function Seed(ids: seq<string>): (fs: seq<Fiera>)
    requires |ids| == 10
    ensures |fs| == 10
    ensures Lists.Keys(fs, FieraId) == ids
    ensures fs[0].nome == "Fiera Sposi Oggi Belluno" && fs[9].nome == "Fiera Sposi Oggi Mantova"
  {
    seq(10, i requires 0 <= i < 10 => Fiera(ids[i], Nomi[i], Date[i]))
  }

  /** The label shown for a fair: `${nome} | ${data}`. */
  function Etichetta(f: Fiera): string {
    f.nome + " | " + f.data
  }

  /** `getOpzioniFiere`: one option per fair, in catalog order. */
  function Opzioni(fs: seq<Fiera>): (os: seq<SelectOption>)
    ensures |os| == |fs|
    ensures forall i :: 0 <= i < |fs| ==> os[i] == SelectOption(fs[i].id, Etichetta(fs[i]))
  {
    if fs == [] then [] else [SelectOption(fs[0].id, Etichetta(fs[0]))] + Opzioni(fs[1..])
  }

  /** The option values are the fair identifiers, in order. */
  lemma OpzioniValues(fs: seq<Fiera>)
    ensures Lists.Keys(Opzioni(fs), (o: SelectOption) => o.value) == Lists.Keys(fs, FieraId)
  {
  }

  /** Adding a fair to the catalog adds its option at the end and leaves the others. */
  lemma {:induction false} OpzioniAppend(fs: seq<Fiera>, f: Fiera)
    ensures Opzioni(fs + [f]) == Opzioni(fs) + [SelectOption(f.id, Etichetta(f))]
  {
    var a := Opzioni(fs + [f]);
    var b := Opzioni(fs) + [SelectOption(f.id, Etichetta(f))];
    assert |a| == |b|;
    forall i | 0 <= i < |a| ensures a[i] == b[i] {
      if i < |fs| {
        assert (fs + [f])[i] == fs[i];
      } else {
        assert (fs + [f])[i] == f;
      }
    }
  }
}

/** The seed list of categories (src/data/categorie.ts) and its projection. */
module CategorieData {
  import opened Types
  import Lists

  const Nomi: seq<string> := [
    "Abbigliamento / Atelier", "Agenzie di viaggio", "Auto a noleggio", "Bomboniere",
    "Catering", "Celebrante", "Estetista", "Event planner", "Fioreria",
    "Foto o videomaker", "Intrattenimento, Musica o Comicità",
    "Location per matrimoni e ricevimenti", "Ristorante", "Parrucchiere o Hairstylist",
    "Trasporti"]

  /** The exported `categorie` list, given the fifteen generated identifiers. */
  function Seed(ids: seq<string>): (cs: seq<Categoria>)
    requires |ids| == 15
    ensures |cs| == 15
    ensures Lists.Keys(cs, CategoriaId) == ids
    ensures cs[0].nome == "Abbigliamento / Atelier" && cs[14].nome == "Trasporti"
  {
    seq(15, i requires 0 <= i < 15 => Categoria(ids[i], Nomi[i]))
  }

  /** `getOpzioniCategorie`: one option per category, labelled with its name. */
  function Opzioni(cs: seq<Categoria>): (os: seq<SelectOption>)
    ensures |os| == |cs|
    ensures forall i :: 0 <= i < |cs| ==> os[i] == SelectOption(cs[i].id, cs[i].nome)
  {
    if cs == [] then [] else [SelectOption(cs[0].id, cs[0].nome)] + Opzioni(cs[1..])
  }

  /** The option values are the category identifiers, in order. */
  lemma OpzioniValues(cs: seq<Categoria>)
    ensures Lists.Keys(Opzioni(cs), (o: SelectOption) => o.value) == Lists.Keys(cs, CategoriaId)
  {
  }
}

/** The three sample exhibitors of src/data/espositori.ts, which seed the admin page,
    the exhibitor management page and the detail page. They use the older schema
    (a single `category`, no `fiere`/`categories`/`email`). */
module EspositoriData {
  import opened Wrappers
  import opened Types

  const Seed: seq<Espositore> := [
    Espositore("1", "Eleganza Abiti da Sposa",
      "Collezione esclusiva di abiti da sposa per il tuo giorno speciale. Offriamo un'ampia gamma di stili, dal classico al moderno, per soddisfare tutti i gusti.",
      "https://images.unsplash.com/photo-1460925895917-afdab827c52f",
      Some("https://www.eleganzaspose.it"), Some("+39 123 456 7890"), None,
      Some("Padiglione A, Stand 12"), Some("Abiti da Sposa"),
      Some(["https://images.unsplash.com/photo-1460925895917-afdab827c52f",
            "https://images.unsplash.com/photo-1461749280684-dccba630e2f6"]),
      None, None),
    Espositore("2", "Fiori & Fantasia",
      "Composizioni floreali uniche per rendere indimenticabile il vostro matrimonio. Dalle decorazioni per la chiesa agli addobbi per il ricevimento.",
      "https://images.unsplash.com/photo-1486312338219-ce68d2c6f44d",
      Some("https://www.fiorifantasia.it"), Some("+39 02 8765 4321"), None,
      Some("Padiglione B, Stand 5"), Some("Fiori e Decorazioni"),
      Some(["https://images.unsplash.com/photo-1486312338219-ce68d2c6f44d"]),
      None, None),
    Espositore("3", "Dolce Momento Catering",
      "Servizio catering di alta qualità per matrimoni ed eventi. Menù personalizzati che uniscono tradizione e innovazione per soddisfare ogni palato.",
      "https://images.unsplash.com/photo-1488590528505-98d2b5aba04b",
      Some("https://www.dolcemomento.it"), Some("+39 06 1234 5678"), None,
      Some("Padiglione C, Stand 20"), Some("Catering e Banqueting"),
      Some(["https://images.unsplash.com/photo-1488590528505-98d2b5aba04b",
            "https://images.unsplash.com/photo-1581091226825-a6a2a5aee158"]),
      None, None)
  ]

  /** The samples carry the identifiers "1" to "3" and follow the older schema: each
      has a single category and no e-mail, fair list or category list. */
  lemma SeedShape()
    ensures |Seed| == 3 && Seed[0].id == "1" && Seed[1].id == "2" && Seed[2].id == "3"
    ensures forall i :: 0 <= i < |Seed| ==>
      Seed[i].category.Some? && Seed[i].email.None? && Seed[i].fiere.None? && Seed[i].categories.None?
  {
  }
}
