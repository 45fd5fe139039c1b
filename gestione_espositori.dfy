/** The exhibitor manager of src/components/GestioneEspositori.tsx: the name search,
    the e-mail check, and the edit dialog, which copies a record into a form, edits
    its image list, validates and normalises the form and hands the payload to the
    `onUpdateEspositore` callback; plus the delete confirmation. */
module GestioneEspositori {
  import opened Wrappers
  import opened Types
  import opened Text
  import opened Forms
  import Lists

  // ---------------------------------------------------------------------------
  // Name search

  function NameMatches(query: string): Espositore -> bool {
    (e: Espositore) => Includes(Lower(e.name), Lower(query))
  }

  /** `filteredEspositori`: the exhibitors whose lower-cased name contains the
      lower-cased query, in list order. */
  function Search(espositori: seq<Espositore>, query: string): (r: seq<Espositore>)
    ensures |r| <= |espositori|
    ensures forall i :: 0 <= i < |r| ==> r[i] in espositori && Includes(Lower(r[i].name), Lower(query))
    ensures forall i :: 0 <= i < |espositori| && Includes(Lower(espositori[i].name), Lower(query)) ==>
      espositori[i] in r
  {
    Lists.Filter(espositori, NameMatches(query))
  }

  /** An empty query hides nothing. */
  lemma SearchEmptyQuery(espositori: seq<Espositore>)
    ensures Search(espositori, "") == espositori
  {
    forall i | 0 <= i < |espositori|
      ensures NameMatches("")(espositori[i])
    {
      assert OccursAt(Lower(espositori[i].name), Lower(""), 0);
    }
  }

  /** The search keeps relative order: it works piecewise on concatenations. */
  lemma SearchConcat(a: seq<Espositore>, b: seq<Espositore>, query: string)
    ensures Search(a + b, query) == Search(a, query) + Search(b, query)
  {
    Lists.FilterConcat(a, b, NameMatches(query));
  }

  // ---------------------------------------------------------------------------
  // E-mail check

  /** The character class `[^\s@]`. */
  predicate EmailChar(c: char) {
    c != '@' && !IsWhitespace(c)
  }

  /** `[^\s@]+`. */
  ghost predicate EmailRun(s: string) {
    |s| > 0 && forall i :: 0 <= i < |s| ==> EmailChar(s[i])
  }

  /** The whole string matches `/^[^\s@]+@[^\s@]+\.[^\s@]+$/`. */
  ghost predicate MatchesEmailPattern(s: string) {
    exists at, dot :: 0 <= at < dot < |s| && s[at] == '@' && s[dot] == '.'
      && EmailRun(s[..at]) && EmailRun(s[at + 1..dot]) && EmailRun(s[dot + 1..])
  }

  /** The first position of `c` in `s`, or `|s|` when there is none. */
  function IndexOf(s: string, c: char): (k: nat)
    ensures k <= |s|
    ensures k < |s| ==> s[k] == c
    ensures forall i :: 0 <= i < k ==> s[i] != c
  {
    Lists.FindIndex(s, (x: char) => x == c)
  }

  /** `isValidEmail`: true for the empty string (the field is optional); otherwise
      exactly one '@', no white space, a non-empty local part, and a domain with a
      '.' that has characters on both sides. */
  function IsValidEmail(email: string): (ok: bool)
    ensures email == "" ==> ok
    ensures ok && email != "" ==> NoWhitespace(email) && 0 < IndexOf(email, '@') < |email|
  {
    if email == "" then true
    else
      var at := IndexOf(email, '@');
      && 0 < at < |email|
      && NoWhitespace(email)
      && '@' !in email[at + 1..]
      && at + 2 < |email| && '.' in email[at + 2..|email| - 1]
  }

  lemma ValidEmailMatches(email: string)
    requires email != "" && IsValidEmail(email)
    ensures MatchesEmailPattern(email)
  {
    var at := IndexOf(email, '@');
    var dot :| at + 1 < dot < |email| - 1 && email[dot] == '.';
    assert EmailRun(email[..at]);
    assert EmailRun(email[at + 1..dot]);
    assert EmailRun(email[dot + 1..]);
  }

  lemma MatchingEmailValid(email: string)
    requires MatchesEmailPattern(email)
    ensures IsValidEmail(email)
  {
    var a, d :| 0 <= a < d < |email| && email[a] == '@' && email[d] == '.'
      && EmailRun(email[..a]) && EmailRun(email[a + 1..d]) && EmailRun(email[d + 1..]);
    forall i | 0 <= i < |email| && i != a && i != d
      ensures EmailChar(email[i])
    {
      if i < a {
        assert email[..a][i] == email[i];
      } else if i < d {
        assert email[a + 1..d][i - a - 1] == email[i];
      } else {
        assert email[d + 1..][i - d - 1] == email[i];
      }
    }
    assert IndexOf(email, '@') == a;
    assert NoWhitespace(email);
    assert '@' !in email[a + 1..] by {
      var rest := email[a + 1..];
      forall j | 0 <= j < |rest|
        ensures rest[j] != '@'
      {
        assert rest[j] == email[a + 1 + j];
      }
    }
    assert |email[a + 1..d]| > 0 && |email[d + 1..]| > 0;
    assert email[a + 2..|email| - 1][d - a - 2] == '.';
  }

  /** `isValidEmail` accepts exactly the empty string and the strings that match its
      regular expression. */
  lemma IsValidEmailMatchesPattern(email: string)
    ensures IsValidEmail(email) <==> email == "" || MatchesEmailPattern(email)
  {
    if email != "" && IsValidEmail(email) {
      ValidEmailMatches(email);
    }
    if MatchesEmailPattern(email) {
      MatchingEmailValid(email);
    }
  }

  /** The boundary examples: "a@b.c" is accepted, "a@b" and "a.com" are not. */
  lemma EmailExamples()
    ensures IsValidEmail("a@b.c")
    ensures !IsValidEmail("a@b") && !IsValidEmail("a.com")
  {
    assert IndexOf("a@b.c", '@') == 1;
    assert ("a@b.c")[3] == '.';
    assert IndexOf("a@b", '@') == 1;
    assert IndexOf("a.com", '@') == 5;
  }

  // ---------------------------------------------------------------------------
  // The edit form

  /** The dialog's form state (`editName` ... `editSelectedCategories`). */
  datatype EditForm = EditForm(
    name: string,
    description: string,
    logoUrl: string,
    website: string,
    phoneNumber: string,
    email: string,
    fairLocation: string,
    images: seq<string>,
    fiere: seq<string>,
    categories: seq<string>)

  const EmptyForm := EditForm("", "", "", "", "", "", "", [], [], [])

  /** `handleEdit`'s copy of a record into the form: absent strings become "",
      absent lists become []. */
  function FormOf(e: Espositore): (f: EditForm)
    ensures f.name == e.name && f.description == e.description && f.logoUrl == e.logoUrl
    ensures e.website.Some? ==> f.website == e.website.value
    ensures e.website.None? ==> f.website == ""
    ensures e.phoneNumber.Some? ==> f.phoneNumber == e.phoneNumber.value
    ensures e.phoneNumber.None? ==> f.phoneNumber == ""
    ensures e.email.Some? ==> f.email == e.email.value
    ensures e.email.None? ==> f.email == ""
    ensures e.fairLocation.Some? ==> f.fairLocation == e.fairLocation.value
    ensures e.fairLocation.None? ==> f.fairLocation == ""
    ensures e.images.Some? ==> f.images == e.images.value
    ensures e.images.None? ==> f.images == []
    ensures e.fiere.Some? ==> f.fiere == e.fiere.value
    ensures e.fiere.None? ==> f.fiere == []
    ensures e.categories.Some? ==> f.categories == e.categories.value
    ensures e.categories.None? ==> f.categories == []
  {
    EditForm(e.name, e.description, e.logoUrl, e.website.GetOr(""), e.phoneNumber.GetOr(""),
             e.email.GetOr(""), e.fairLocation.GetOr(""), e.images.GetOr([]), e.fiere.GetOr([]),
             e.categories.GetOr([]))
  }

  /** The three validation failures, in the order they are checked. */
  datatype EditError = MissingRequired | DescriptionTooShort | InvalidEmail

  const MinDescriptionLength := 100

  /** The checks of `handleSubmitEdit`, in order: the first failing one, or none. */
  function CheckEdit(f: EditForm): (r: Option<EditError>)
    ensures r == Some(MissingRequired) <==> Blank(f.name) || Blank(f.description) || Blank(f.logoUrl)
    ensures r == Some(DescriptionTooShort) <==>
      !Blank(f.name) && !Blank(f.description) && !Blank(f.logoUrl) && |f.description| < MinDescriptionLength
    ensures r == Some(InvalidEmail) <==>
      !Blank(f.name) && !Blank(f.description) && !Blank(f.logoUrl) && |f.description| >= MinDescriptionLength
      && f.email != "" && !IsValidEmail(f.email)
  {
    if Blank(f.name) || Blank(f.description) || Blank(f.logoUrl) then Some(MissingRequired)
    else if |f.description| < MinDescriptionLength then Some(DescriptionTooShort)
    else if f.email != "" && !IsValidEmail(f.email) then Some(InvalidEmail)
    else None
  }

  /** The payload `handleSubmitEdit` builds from the form: required texts trimmed,
      optional texts trimmed or absent, empty lists absent, no `category`. */
  function Payload(f: EditForm): (d: EspositoreData)
    ensures d.name == Trim(f.name) && d.description == Trim(f.description) && d.logoUrl == Trim(f.logoUrl)
    ensures d.website == OptionalText(f.website) && d.phoneNumber == OptionalText(f.phoneNumber)
    ensures d.email == OptionalText(f.email) && d.fairLocation == OptionalText(f.fairLocation)
    ensures d.images == OptionalList(f.images) && d.fiere == OptionalList(f.fiere)
    ensures d.categories == OptionalList(f.categories)
    ensures IsTrimmed(d.name) && IsTrimmed(d.description) && IsTrimmed(d.logoUrl)
    ensures NormalText(d.website) && NormalText(d.phoneNumber) && NormalText(d.email) && NormalText(d.fairLocation)
    ensures NormalList(d.images) && NormalList(d.fiere) && NormalList(d.categories)
    ensures d.category.None?
  {
    EspositoreData(
      Trim(f.name), Trim(f.description), Trim(f.logoUrl),
      OptionalText(f.website), OptionalText(f.phoneNumber), OptionalText(f.email),
      OptionalText(f.fairLocation), None,
      OptionalList(f.images), OptionalList(f.fiere), OptionalList(f.categories))
  }

  predicate NormalText(o: Option<string>) {
    o.None? || (o.value != "" && IsTrimmed(o.value))
  }

  predicate NormalList(o: Option<seq<string>>) {
    o.None? || o.value != []
  }

  /** A record in the shape the edit dialog stores: required fields non-empty and
      trimmed, a description of at least 100 characters, optional texts absent or
      non-empty and trimmed, a valid e-mail, optional lists absent or non-empty. */
  predicate Normalized(e: Espositore) {
    && e.name != "" && IsTrimmed(e.name)
    && e.description != "" && IsTrimmed(e.description) && |e.description| >= MinDescriptionLength
    && e.logoUrl != "" && IsTrimmed(e.logoUrl)
    && NormalText(e.website) && NormalText(e.phoneNumber) && NormalText(e.email) && NormalText(e.fairLocation)
    && (e.email.Some? ==> IsValidEmail(e.email.value))
    && NormalList(e.images) && NormalList(e.fiere) && NormalList(e.categories)
  }

  lemma OptionalTextRoundTrip(o: Option<string>)
    requires NormalText(o)
    ensures OptionalText(o.GetOr("")) == o
  {
    if o.Some? {
      OptionalTextOfValue(o.value);
    }
  }

  lemma EditRoundTripChecks(e: Espositore)
    requires Normalized(e)
    ensures CheckEdit(FormOf(e)) == None
  {
    TrimOfTrimmed(e.name);
    TrimOfTrimmed(e.description);
    TrimOfTrimmed(e.logoUrl);
  }

  lemma EditRoundTripPayload(e: Espositore)
    requires Normalized(e)
    ensures Payload(FormOf(e)) == DataOf(e).(category := None)
  {
    TrimOfTrimmed(e.name);
    TrimOfTrimmed(e.description);
    TrimOfTrimmed(e.logoUrl);
    OptionalTextRoundTrip(e.website);
    OptionalTextRoundTrip(e.phoneNumber);
    OptionalTextRoundTrip(e.email);
    OptionalTextRoundTrip(e.fairLocation);
  }

  /** A form that passes the checks and whose trimmed description still has 100
      characters is stored as a normalised record. */
  lemma SubmittedNormalized(f: EditForm, id: string)
    requires CheckEdit(f) == None && |Trim(f.description)| >= MinDescriptionLength
    ensures Normalized(WithId(Payload(f), id))
  {
    var d := Payload(f);
    assert d.name != "" && d.logoUrl != "";
    if f.email != "" {
      assert IsValidEmail(f.email);
      assert NoWhitespace(f.email);
      TrimOfTrimmed(f.email);
    }
  }

  /** The length check reads the untrimmed description, so white-space padding lets a
      description shorter than 100 characters through, and the stored record then
      fails the same check when it is opened and saved again. */
  lemma PaddedDescriptionAccepted(core: string)
    requires |core| == MinDescriptionLength - 1 && IsTrimmed(core)
    ensures var f := EditForm("n", core + " ", "l", "", "", "", "", [], [], []);
      && CheckEdit(f) == None
      && |Payload(f).description| == MinDescriptionLength - 1
      && CheckEdit(FormOf(WithId(Payload(f), "x"))) == Some(DescriptionTooShort)
  {
    TrimPadding([], core, " ");
    assert [] + core + " " == core + " ";
    TrimOfTrimmed("n");
    TrimOfTrimmed("l");
    TrimOfTrimmed(core);
  }

  /** The checks with the length test on the description as it will be stored, that
      is trimmed; every other outcome is the one `CheckEdit` gives. */
  function CheckEditTrimmed(f: EditForm): (r: Option<EditError>)
    ensures r == Some(DescriptionTooShort) <==>
      !Blank(f.name) && !Blank(f.description) && !Blank(f.logoUrl) && |Trim(f.description)| < MinDescriptionLength
    ensures r != Some(DescriptionTooShort) ==> r == CheckEdit(f)
  {
    if !Blank(f.name) && !Blank(f.description) && !Blank(f.logoUrl)
       && |Trim(f.description)| < MinDescriptionLength
    then Some(DescriptionTooShort)
    else CheckEdit(f)
  }

  /** Everything the corrected checks accept is stored as a normalised record, with a
      description of at least 100 characters. */
  lemma AcceptedIsNormalized(f: EditForm, id: string)
    requires CheckEditTrimmed(f) == None
    ensures Normalized(WithId(Payload(f), id))
  {
    SubmittedNormalized(f, id);
  }

  /** A normalised record opened and saved again unchanged passes the corrected
      checks, so storing and re-editing agree. */
  lemma NormalizedPassesTrimmedCheck(e: Espositore)
    requires Normalized(e)
    ensures CheckEditTrimmed(FormOf(e)) == None
  {
    EditRoundTripChecks(e);
    TrimOfTrimmed(e.description);
  }

  /** The padded description of `PaddedDescriptionAccepted` is refused by the corrected
      checks. */
  lemma PaddedDescriptionRejected(core: string)
    requires |core| == MinDescriptionLength - 1 && IsTrimmed(core)
    ensures CheckEditTrimmed(EditForm("n", core + " ", "l", "", "", "", "", [], [], [])) == Some(DescriptionTooShort)
  {
    TrimPadding([], core, " ");
    assert [] + core + " " == core + " ";
    TrimOfTrimmed("n");
    TrimOfTrimmed("l");
    TrimOfTrimmed(core);
  }

  // ---------------------------------------------------------------------------
  // The component state

  /** What `handleSubmitEdit` did. */
  datatype SubmitOutcome = NoCurrent | Rejected(error: EditError) | Submitted

  class Gestione {
    var search: string
    var isEditDialogOpen: bool
    var isDeleteDialogOpen: bool
    var current: Option<Espositore>
    var form: EditForm
    var newImageUrl: string
    /** Every `onUpdateEspositore(id, payload)` call, oldest first. */
    var updates: seq<(string, EspositoreData)>
    /** Every `onDeleteEspositore(id)` call, oldest first. */
    var deletions: seq<string>

    /** A dialog is only ever open for a chosen exhibitor. */
    ghost predicate Valid()
      reads this
    {
      (isEditDialogOpen || isDeleteDialogOpen) ==> current.Some?
    }

    constructor ()
      ensures Valid()
      ensures search == "" && !isEditDialogOpen && !isDeleteDialogOpen && current == None
      ensures form == EmptyForm && newImageUrl == "" && updates == [] && deletions == []
    {
      search := "";
      isEditDialogOpen, isDeleteDialogOpen := false, false;
      current := None;
      form := EmptyForm;
      newImageUrl := "";
      updates, deletions := [], [];
    }

    /** The list shown for the `espositori` prop. */
    function Visible(espositori: seq<Espositore>): (r: seq<Espositore>)
      reads this
      ensures forall i :: 0 <= i < |r| ==> r[i] in espositori && Includes(Lower(r[i].name), Lower(search))
      ensures forall i :: 0 <= i < |espositori| && Includes(Lower(espositori[i].name), Lower(search)) ==>
        espositori[i] in r
      ensures search == "" ==> r == espositori
    {
      SearchEmptyQuery(espositori);
      Search(espositori, search)
    }

    method SetSearch(query: string)
      requires Valid()
      modifies this`search
      ensures Valid() && search == query
    {
      search := query;
    }

    /** The `onChange` handlers of the dialog's inputs and selectors. */
    method SetForm(f: EditForm)
      requires Valid()
      modifies this`form
      ensures Valid() && form == f
    {
      form := f;
    }

    method SetNewImageUrl(url: string)
      requires Valid()
      modifies this`newImageUrl
      ensures Valid() && newImageUrl == url
    {
      newImageUrl := url;
    }

    /** `handleEdit`: remember the record, copy it into the form, open the dialog. */
    method HandleEdit(e: Espositore)
      requires Valid()
      modifies this`current, this`form, this`isEditDialogOpen
      ensures Valid()
      ensures current == Some(e) && form == FormOf(e) && isEditDialogOpen
    {
      current := Some(e);
      form := FormOf(e);
      isEditDialogOpen := true;
    }

    /** `handleDelete`: remember the record and ask for confirmation. */
    method HandleDelete(e: Espositore)
      requires Valid()
      modifies this`current, this`isDeleteDialogOpen
      ensures Valid()
      ensures current == Some(e) && isDeleteDialogOpen
    {
      current := Some(e);
      isDeleteDialogOpen := true;
    }

    /** `handleAddImage`: a non-blank URL is appended trimmed and the input cleared. */
    method HandleAddImage()
      requires Valid()
      modifies this`form, this`newImageUrl
      ensures Valid()
      ensures Blank(old(newImageUrl)) ==> form == old(form) && newImageUrl == old(newImageUrl)
      ensures !Blank(old(newImageUrl)) ==>
        form == old(form).(images := AppendImage(old(form.images), old(newImageUrl))) && newImageUrl == ""
    {
      if !Blank(newImageUrl) {
        form := form.(images := AppendImage(form.images, newImageUrl));
        newImageUrl := "";
      }
    }

    /** `handleRemoveImage`. */
    method HandleRemoveImage(index: int)
      requires Valid()
      modifies this`form
      ensures Valid()
      ensures form == old(form).(images := RemoveImage(old(form.images), index))
    {
      form := form.(images := RemoveImage(form.images, index));
    }

    /** The dialog's cancel button. */
    method CloseEditDialog()
      requires Valid()
      modifies this`isEditDialogOpen
      ensures Valid() && !isEditDialogOpen
    {
      isEditDialogOpen := false;
    }

    /** The delete confirmation's cancel button and its `onOpenChange` on dismissal:
        the dialog closes and nothing is deleted. */
    method CloseDeleteDialog()
      requires Valid()
      modifies this`isDeleteDialogOpen
      ensures Valid() && !isDeleteDialogOpen
    {
      isDeleteDialogOpen := false;
    }

    /** `handleSubmitEdit`: without a current record nothing happens; a failed check
        leaves everything as it was (the dialog stays open); otherwise the callback
        runs once with the record's identifier and the normalised payload and the
        dialog closes. The length test is the corrected one of `CheckEditTrimmed`. */
    method HandleSubmitEdit() returns (outcome: SubmitOutcome)
      requires Valid()
      modifies this`updates, this`isEditDialogOpen
      ensures Valid()
      ensures old(current).None? ==> outcome == NoCurrent && unchanged(this)
      ensures old(current).Some? && CheckEditTrimmed(old(form)).Some? ==>
        outcome == Rejected(CheckEditTrimmed(old(form)).value) && unchanged(this)
      ensures old(current).Some? && CheckEditTrimmed(old(form)).None? ==>
        && outcome == Submitted
        && updates == old(updates) + [(old(current).value.id, Payload(old(form)))]
        && Normalized(WithId(Payload(old(form)), old(current).value.id))
        && !isEditDialogOpen
    {
      if current.None? {
        return NoCurrent;
      }
      var f := form;
      var error := CheckEditTrimmed(f);
      if error.Some? {
        return Rejected(error.value);
      }
      var payload := Payload(f);
      AcceptedIsNormalized(f, current.value.id);
      updates := updates + [(current.value.id, payload)];
      isEditDialogOpen := false;
      outcome := Submitted;
    }

    /** `handleConfirmDelete`. */
    method HandleConfirmDelete()
      requires Valid()
      modifies this`deletions, this`isDeleteDialogOpen
      ensures Valid()
      ensures old(current).None? ==> unchanged(this)
      ensures old(current).Some? ==> deletions == old(deletions) + [old(current).value.id] && !isDeleteDialogOpen
      ensures old(isDeleteDialogOpen) ==> |deletions| == |old(deletions)| + 1
    {
      if current.Some? {
        deletions := deletions + [current.value.id];
        isDeleteDialogOpen := false;
      }
    }
  }
}
