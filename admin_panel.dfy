/** The exhibitor creation form of src/components/AdminPanel.tsx: nine input states,
    the image list editor, and `handleSubmit`, which checks the required fields,
    hands a normalised record to `onAddEspositore` and clears the form. */
module AdminPanel {
  import opened Wrappers
  import opened Types
  import opened Text
  import opened Forms
  import GestioneEspositori

  /** The record `handleSubmit` builds: required texts trimmed, optional texts
      (category included) trimmed or absent, an empty image list absent. The form has
      no e-mail, fair or category-list inputs, so those stay absent. */
  function NewEspositore(name: string, description: string, logoUrl: string, website: string,
                         phoneNumber: string, fairLocation: string, category: string,
                         images: seq<string>): (d: EspositoreData)
    ensures d.name == Trim(name) && d.description == Trim(description) && d.logoUrl == Trim(logoUrl)
    ensures IsTrimmed(d.name) && IsTrimmed(d.description) && IsTrimmed(d.logoUrl)
    ensures d.website == OptionalText(website) && d.phoneNumber == OptionalText(phoneNumber)
    ensures d.fairLocation == OptionalText(fairLocation) && d.category == OptionalText(category)
    ensures d.images.None? <==> images == []
    ensures d.images.Some? ==> d.images.value == images
    ensures d.email.None? && d.fiere.None? && d.categories.None?
  {
    EspositoreData(
      Trim(name), Trim(description), Trim(logoUrl),
      OptionalText(website), OptionalText(phoneNumber), None, OptionalText(fairLocation),
      OptionalText(category), OptionalList(images), None, None)
  }

  /** The only check: none of the three required fields is blank. */
  predicate RequiredPresent(name: string, description: string, logoUrl: string) {
    !Blank(name) && !Blank(description) && !Blank(logoUrl)
  }

  /** A created record passes the edit dialog's required-field check when it is later
      opened for editing: trimming a trimmed, non-empty text leaves it non-empty. */
  lemma CreatedPassesRequiredCheck(name: string, description: string, logoUrl: string, website: string,
                                   phoneNumber: string, fairLocation: string, category: string,
                                   images: seq<string>, id: string)
    requires RequiredPresent(name, description, logoUrl)
    ensures var d := NewEspositore(name, description, logoUrl, website, phoneNumber, fairLocation, category, images);
      GestioneEspositori.CheckEdit(GestioneEspositori.FormOf(WithId(d, id))) != Some(GestioneEspositori.MissingRequired)
  {
    TrimIdempotent(name);
    TrimIdempotent(description);
    TrimIdempotent(logoUrl);
  }

  class Panel {
    var name: string
    var description: string
    var logoUrl: string
    var website: string
    var phoneNumber: string
    var fairLocation: string
    var category: string
    var imageUrl: string
    var images: seq<string>
    /** Every record passed to `onAddEspositore`, oldest first. */
    var added: seq<EspositoreData>

    /** Every input is empty. */
    predicate Cleared()
      reads this
    {
      && name == "" && description == "" && logoUrl == "" && website == ""
      && phoneNumber == "" && fairLocation == "" && category == "" && imageUrl == ""
      && images == []
    }

    constructor ()
      ensures Cleared() && added == []
    {
      name, description, logoUrl, website := "", "", "", "";
      phoneNumber, fairLocation, category, imageUrl := "", "", "", "";
      images := [];
      added := [];
    }

    /** The `onChange` handlers of the text inputs. */
    method SetFields(name': string, description': string, logoUrl': string, website': string,
                     phoneNumber': string, fairLocation': string, category': string, imageUrl': string)
      modifies this`name, this`description, this`logoUrl, this`website
      modifies this`phoneNumber, this`fairLocation, this`category, this`imageUrl
      ensures name == name' && description == description' && logoUrl == logoUrl' && website == website'
      ensures phoneNumber == phoneNumber' && fairLocation == fairLocation' && category == category'
      ensures imageUrl == imageUrl'
    {
      name, description, logoUrl, website := name', description', logoUrl', website';
      phoneNumber, fairLocation, category, imageUrl := phoneNumber', fairLocation', category', imageUrl';
    }

    /** `handleAddImage`: a non-blank URL is appended trimmed and the input cleared. */
    method HandleAddImage()
      modifies this`images, this`imageUrl
      ensures Blank(old(imageUrl)) ==> images == old(images) && imageUrl == old(imageUrl)
      ensures !Blank(old(imageUrl)) ==> images == AppendImage(old(images), old(imageUrl)) && imageUrl == ""
    {
      if !Blank(imageUrl) {
        images := AppendImage(images, imageUrl);
        imageUrl := "";
      }
    }

    /** `handleRemoveImage`. */
    method HandleRemoveImage(index: int)
      modifies this`images
      ensures images == RemoveImage(old(images), index)
    {
      images := RemoveImage(images, index);
    }

    /** The form reset at the end of `handleSubmit`: every input back to empty. */
    method ResetForm()
      modifies this`name, this`description, this`logoUrl, this`website
      modifies this`phoneNumber, this`fairLocation, this`category, this`imageUrl, this`images
      ensures Cleared()
    {
      name, description, logoUrl, website := "", "", "", "";
      phoneNumber, fairLocation, category, imageUrl := "", "", "", "";
      images := [];
    }

    /** `handleSubmit`: with a blank required field nothing changes and `false` is
        returned; otherwise the callback receives the normalised record once and every
        input is cleared. */
    method HandleSubmit() returns (submitted: bool)
      modifies this
      ensures submitted <==> RequiredPresent(old(name), old(description), old(logoUrl))
      ensures !submitted ==> unchanged(this)
      ensures submitted ==>
        && added == old(added) + [NewEspositore(old(name), old(description), old(logoUrl), old(website),
                                                old(phoneNumber), old(fairLocation), old(category), old(images))]
        && Cleared()
    {
      if !RequiredPresent(name, description, logoUrl) {
        return false;
      }
      submitted := true;
      var d := NewEspositore(name, description, logoUrl, website, phoneNumber, fairLocation, category, images);
      added := added + [d];
      ResetForm();
    }
  }
}
