/** The exhibitor detail page of src/pages/EspositoreDetail.tsx: the record is looked
    up by the route's identifier in the sample data, the page metadata is derived from
    it, and the PDF download raises a flag for the duration of the export. */
module EspositoreDetail {
  import opened Wrappers
  import opened Types
  import Lists
  import EspositoriData
  import PdfGenerator
  import opened PdfDownload

  function HasId(id: string): Espositore -> bool {
    (e: Espositore) => e.id == id
  }

  /** `espositori.find(e => e.id === id)`: the first record with the identifier. */
  function FindById(es: seq<Espositore>, id: string): (r: Option<Espositore>)
    ensures r.None? <==> forall i :: 0 <= i < |es| ==> es[i].id != id
    ensures forall i :: 0 <= i < |es| && es[i].id == id && (forall j :: 0 <= j < i ==> es[j].id != id) ==>
      r == Some(es[i])
  {
    Lists.Find(es, HasId(id))
  }

  /** A record found by an identifier carries that identifier and comes from the
      list. */
  lemma FoundRecordMatches(es: seq<Espositore>, id: string)
    requires FindById(es, id).Some?
    ensures FindById(es, id).value.id == id && FindById(es, id).value in es
  {
    var k := Lists.FindIndex(es, HasId(id));
    assert k < |es| && es[k].id == id;
  }

  const MetaLength := 160

  /** `description.substring(0, 160)`. */
  function MetaDescription(description: string): (r: string)
    ensures |r| == if |description| < MetaLength then |description| else MetaLength
    ensures r == description[..|r|]
  {
    if |description| < MetaLength then description else description[..MetaLength]
  }

  /** A description of at most 160 characters is used whole. */
  lemma ShortDescriptionKept(description: string)
    requires |description| <= MetaLength
    ensures MetaDescription(description) == description
  {
  }

  class DetailPage {
    /** The imported sample list the page searches. */
    var catalog: seq<Espositore>
    var espositore: Option<Espositore>
    var isGeneratingPDF: bool
    /** The content given to the description meta tag, once set. */
    var metaContent: Option<string>
    /** Every `navigate` target, oldest first. */
    var navigations: seq<string>
    var downloads: seq<Download>
    var notices: seq<Notice>

    /** Between handlers no export is running. */
    predicate Valid()
      reads this
    {
      !isGeneratingPDF
    }

    constructor ()
      ensures Valid() && catalog == EspositoriData.Seed
      ensures espositore == None && metaContent == None && navigations == []
      ensures downloads == [] && notices == []
    {
      catalog := EspositoriData.Seed;
      espositore := None;
      isGeneratingPDF := false;
      metaContent := None;
      navigations := [];
      downloads, notices := [], [];
    }

    /** The effect for the route identifier `id`: a found record is stored and its
        description prefix becomes the meta description (when the page has that tag);
        otherwise the page navigates to "/" and keeps whatever it held. */
    method LoadExhibitor(id: string, hasMetaTag: bool)
      modifies this`espositore, this`metaContent, this`navigations
      ensures FindById(catalog, id).Some? ==>
        && espositore == FindById(catalog, id)
        && (hasMetaTag ==> metaContent == Some(MetaDescription(espositore.value.description)))
        && (!hasMetaTag ==> metaContent == old(metaContent))
        && navigations == old(navigations)
      ensures FindById(catalog, id).None? ==>
        && espositore == old(espositore) && metaContent == old(metaContent)
        && navigations == old(navigations) + ["/"]
    {
      var found := FindById(catalog, id);
      if found.Some? {
        espositore := found;
        if hasMetaTag {
          metaContent := Some(MetaDescription(found.value.description));
        }
      } else {
        navigations := navigations + ["/"];
      }
    }

    /** The export inside the `try` block, which only runs while the flag is up. */
    method RunExport(e: Espositore, descriptionLines: seq<string>, today: string, fails: bool)
      returns (download: Option<Download>)
      requires isGeneratingPDF
      ensures fails ==> download.None?
      ensures !fails ==> download == Some(Download(DownloadFilename(e.name), PdfGenerator.Layout(e, descriptionLines, today)))
    {
      download := ExportPdf(e, descriptionLines, today, fails);
    }

    /** `handleDownloadPDF`: nothing without a record; otherwise the flag goes up,
        the export runs, its download and a success notice or, when it throws, only
        an error notice follow, and the flag comes down again (`finally`). */
    method HandleDownloadPDF(descriptionLines: seq<string>, today: string, fails: bool)
      requires Valid()
      modifies this`isGeneratingPDF, this`downloads, this`notices
      ensures Valid()
      ensures espositore.None? ==> downloads == old(downloads) && notices == old(notices)
      ensures espositore.Some? && fails ==> downloads == old(downloads) && notices == old(notices) + [PdfFailed]
      ensures espositore.Some? && !fails ==>
        && downloads == old(downloads) + [Download(DownloadFilename(espositore.value.name),
                                                   PdfGenerator.Layout(espositore.value, descriptionLines, today))]
        && notices == old(notices) + [PdfGenerated]
    {
      if espositore.None? {
        return;
      }
      isGeneratingPDF := true;
      var download := RunExport(espositore.value, descriptionLines, today, fails);
      if download.Some? {
        downloads := downloads + [download.value];
        notices := notices + [PdfGenerated];
      } else {
        notices := notices + [PdfFailed];
      }
      isGeneratingPDF := false;
    }
  }
}

/** The detail dialog of src/components/EspositoreModal.tsx: the record is a prop, and
    the PDF download behaves as on the detail page. */
module EspositoreModal {
  import opened Wrappers
  import opened Types
  import PdfGenerator
  import opened PdfDownload

  class Modal {
    var isGeneratingPDF: bool
    var downloads: seq<Download>
    var notices: seq<Notice>

    /** Between handlers no export is running. */
    predicate Valid()
      reads this
    {
      !isGeneratingPDF
    }

    constructor ()
      ensures Valid() && downloads == [] && notices == []
    {
      isGeneratingPDF := false;
      downloads, notices := [], [];
    }

    /** The export inside the `try` block, which only runs while the flag is up. */
    method RunExport(e: Espositore, descriptionLines: seq<string>, today: string, fails: bool)
      returns (download: Option<Download>)
      requires isGeneratingPDF
      ensures fails ==> download.None?
      ensures !fails ==> download == Some(Download(DownloadFilename(e.name), PdfGenerator.Layout(e, descriptionLines, today)))
    {
      download := ExportPdf(e, descriptionLines, today, fails);
    }

    /** `handleDownloadPDF` for the `espositore` prop: nothing for `null`; a failed
        export leaves no download and issues the error notice; the flag is down
        afterwards in every case. */
    method HandleDownloadPDF(espositore: Option<Espositore>, descriptionLines: seq<string>, today: string, fails: bool)
      requires Valid()
      modifies this`isGeneratingPDF, this`downloads, this`notices
      ensures Valid()
      ensures espositore.None? ==> downloads == old(downloads) && notices == old(notices)
      ensures espositore.Some? && fails ==> downloads == old(downloads) && notices == old(notices) + [PdfFailed]
      ensures espositore.Some? && !fails ==>
        && downloads == old(downloads) + [Download(DownloadFilename(espositore.value.name),
                                                   PdfGenerator.Layout(espositore.value, descriptionLines, today))]
        && notices == old(notices) + [PdfGenerated]
    {
      if espositore.None? {
        return;
      }
      isGeneratingPDF := true;
      var download := RunExport(espositore.value, descriptionLines, today, fails);
      if download.Some? {
        downloads := downloads + [download.value];
        notices := notices + [PdfGenerated];
      } else {
        notices := notices + [PdfFailed];
      }
      isGeneratingPDF := false;
    }
  }
}
