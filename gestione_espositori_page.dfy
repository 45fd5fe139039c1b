/** The exhibitor management page of src/pages/GestioneEspositoriPage.tsx: the page's
    own exhibitor list, the update and delete callbacks it hands to the manager, and
    the session gate (loading, then the manager or a redirect to the admin login). */
module GestioneEspositoriPage {
  import opened Wrappers
  import opened Types
  import Lists
  import EspositoriData

  /** `{ ...updated, fiere: updated.fiere || [], categories: updated.categories || [] }`:
      an absent list becomes the empty list; a present one (even empty, which is
      truthy in JavaScript) is kept. */
  function Sanitize(d: EspositoreData): (s: EspositoreData)
    ensures s.fiere.Some? && s.categories.Some?
    ensures d.fiere.Some? ==> s.fiere == d.fiere
    ensures d.categories.Some? ==> s.categories == d.categories
    ensures d.fiere.None? ==> s.fiere == Some([])
    ensures d.categories.None? ==> s.categories == Some([])
    ensures s.(fiere := d.fiere, categories := d.categories) == d
  {
    d.(fiere := Some(d.fiere.GetOr([])), categories := Some(d.categories.GetOr([])))
  }

  /** The replacement `handleUpdateEspositore` maps over matching records. */
  function Updated(id: string, d: EspositoreData): Espositore -> Espositore {
    (e: Espositore) => WithId(Sanitize(d), id)
  }

  /** `espositori.map(esp => esp.id === id ? { ...sanitized, id } : esp)`. */
  function UpdateEspositore(es: seq<Espositore>, id: string, d: EspositoreData): (r: seq<Espositore>)
    ensures |r| == |es|
    ensures forall i :: 0 <= i < |es| ==>
      r[i] == if es[i].id == id then WithId(Sanitize(d), id) else es[i]
    ensures Lists.Keys(r, EspositoreId) == Lists.Keys(es, EspositoreId)
  {
    Lists.ReplaceKeyKeepsKeys(es, EspositoreId, id, Updated(id, d));
    Lists.ReplaceKey(es, EspositoreId, id, Updated(id, d))
  }

  /** `espositori.filter(esp => esp.id !== id)`. */
  function DeleteEspositore(es: seq<Espositore>, id: string): (r: seq<Espositore>)
    ensures |r| <= |es|
    ensures forall i :: 0 <= i < |r| ==> r[i] in es && r[i].id != id
    ensures forall i :: 0 <= i < |es| && es[i].id != id ==> es[i] in r
    ensures (forall i :: 0 <= i < |es| ==> es[i].id != id) ==> r == es
  {
    Lists.RemoveKey(es, EspositoreId, id)
  }

  /** After an update every record that carries the identifier has both lists. */
  lemma UpdatedRecordsHaveLists(es: seq<Espositore>, id: string, d: EspositoreData)
    ensures forall i :: 0 <= i < |es| && es[i].id == id ==>
      UpdateEspositore(es, id, d)[i].fiere.Some? && UpdateEspositore(es, id, d)[i].categories.Some?
  {
  }

  /** Updating an identifier nobody carries changes nothing. */
  lemma UpdateUnknownId(es: seq<Espositore>, id: string, d: EspositoreData)
    requires forall i :: 0 <= i < |es| ==> es[i].id != id
    ensures UpdateEspositore(es, id, d) == es
  {
    Lists.ReplaceAbsentKey(es, EspositoreId, id, Updated(id, d));
  }

  /** Submitting the same update twice stores the same list as submitting it once. */
  lemma UpdateIdempotent(es: seq<Espositore>, id: string, d: EspositoreData)
    ensures UpdateEspositore(UpdateEspositore(es, id, d), id, d) == UpdateEspositore(es, id, d)
  {
    Lists.ReplaceKeyIdempotent(es, EspositoreId, id, Updated(id, d));
  }

  /** Deleting a record after updating it is the same as deleting it unedited. */
  lemma DeleteAfterUpdate(es: seq<Espositore>, id: string, d: EspositoreData)
    ensures DeleteEspositore(UpdateEspositore(es, id, d), id) == DeleteEspositore(es, id)
  {
    Lists.RemoveKeyAfterReplace(es, EspositoreId, id, Updated(id, d));
  }

  /** How `supabase.auth.getSession()` settled: with or without a session, or by
      throwing. */
  datatype SessionCheck = Resolved(hasSession: bool) | Threw

  /** What the page renders. */
  datatype Screen = LoadingPlaceholder | RedirectToAdmin | Manager

  /** The render decision: the placeholder while loading, else the redirect to
      "/admin" when unauthenticated, else the manager. */
  function ScreenOf(isLoading: bool, isAuthenticated: bool): (s: Screen)
    ensures s == LoadingPlaceholder <==> isLoading
    ensures s == RedirectToAdmin <==> !isLoading && !isAuthenticated
    ensures s == Manager <==> !isLoading && isAuthenticated
  {
    if isLoading then LoadingPlaceholder
    else if !isAuthenticated then RedirectToAdmin
    else Manager
  }

  class Page {
    var espositori: seq<Espositore>
    var isAuthenticated: bool
    var isLoading: bool
    /** Whether the `onAuthStateChange` listener is registered. */
    var listening: bool

    /** The first render: the seed list, loading, unauthenticated, no listener. */
    constructor ()
      ensures espositori == EspositoriData.Seed
      ensures !isAuthenticated && isLoading && !listening
      ensures ScreenOf(isLoading, isAuthenticated) == LoadingPlaceholder
    {
      espositori := EspositoriData.Seed;
      isAuthenticated := false;
      isLoading := true;
      listening := false;
    }

    /** The effect registers the listener; the session check it starts settles later
        through `CheckSessionSettled`. */
    method Mount()
      modifies this`listening
      ensures listening
    {
      listening := true;
    }

    /** `checkSession`'s continuation: a resolved check sets the flag iff there is a
        session, a throwing one leaves it; in both cases loading ends (`finally`). */
    method CheckSessionSettled(check: SessionCheck)
      modifies this`isAuthenticated, this`isLoading
      ensures !isLoading
      ensures check.Resolved? ==> isAuthenticated == check.hasSession
      ensures check.Threw? ==> isAuthenticated == old(isAuthenticated)
    {
      if check.Resolved? {
        isAuthenticated := check.hasSession;
      }
      isLoading := false;
    }

    /** An `onAuthStateChange` event, delivered only while the listener is
        registered. */
    method AuthStateChange(hasSession: bool)
      modifies this`isAuthenticated
      ensures listening ==> isAuthenticated == hasSession
      ensures !listening ==> isAuthenticated == old(isAuthenticated)
    {
      if listening {
        isAuthenticated := hasSession;
      }
    }

    /** The effect's cleanup: `authListener.subscription.unsubscribe()`. */
    method Unmount()
      modifies this`listening
      ensures !listening
    {
      listening := false;
    }

    /** `handleUpdateEspositore`. */
    method HandleUpdateEspositore(id: string, d: EspositoreData)
      modifies this`espositori
      ensures espositori == UpdateEspositore(old(espositori), id, d)
    {
      espositori := UpdateEspositore(espositori, id, d);
    }

    /** `handleDeleteEspositore`. */
    method HandleDeleteEspositore(id: string)
      modifies this`espositori
      ensures espositori == DeleteEspositore(old(espositori), id)
    {
      espositori := DeleteEspositore(espositori, id);
    }
  }
}

/** The admin page of src/pages/Admin.tsx: a local exhibitor list seeded with the
    sample data, to which the creation form appends. */
module AdminPage {
  import opened Types
  import Lists
  import EspositoriData

  /** `[...list, { ...data, id }]`. */
  function AddEspositore(es: seq<Espositore>, d: EspositoreData, id: string): (r: seq<Espositore>)
    ensures |r| == |es| + 1 && r[..|es|] == es
    ensures r[|es|].id == id && DataOf(r[|es|]) == d
  {
    es + [WithId(d, id)]
  }

  /** Deleting by the fresh identifier removes exactly the record just added. */
  lemma DeleteUndoesAdd(es: seq<Espositore>, d: EspositoreData, id: string)
    requires forall i :: 0 <= i < |es| ==> es[i].id != id
    ensures Lists.RemoveKey(AddEspositore(es, d, id), EspositoreId, id) == es
  {
    Lists.RemoveKeyAfterAppend(es, WithId(d, id), EspositoreId);
  }

  class Admin {
    var espositoriList: seq<Espositore>

    constructor ()
      ensures espositoriList == EspositoriData.Seed
    {
      espositoriList := EspositoriData.Seed;
    }

    /** `handleAddEspositore`, with `freshId` standing for the `uuidv4()` result. */
    method HandleAddEspositore(d: EspositoreData, freshId: string)
      modifies this
      ensures espositoriList == AddEspositore(old(espositoriList), d, freshId)
    {
      espositoriList := espositoriList + [WithId(d, freshId)];
    }
  }
}
