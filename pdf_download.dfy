/** The PDF download shared by the detail page (src/pages/EspositoreDetail.tsx) and
    the detail dialog (src/components/EspositoreModal.tsx), whose `handleDownloadPDF`
    handlers are identical: the file name derived from the exhibitor's name and the
    export itself. */
module PdfDownload {
  import opened Wrappers
  import opened Text
  import opened Types
  import PdfGenerator

  const Suffix := "-details.pdf"

  /** `${name.replace(/\s+/g, '-').toLowerCase()}-details.pdf`. */
  function DownloadFilename(name: string): (r: string)
    ensures NoWhitespace(r)
    ensures forall i :: 0 <= i < |r| ==> !('A' <= r[i] <= 'Z')
    ensures |Suffix| <= |r| <= |name| + |Suffix| && r[|r| - |Suffix|..] == Suffix
  {
    var stem := Lower(ReplaceWhitespaceRuns(name, '-'));
    assert NoWhitespace(Suffix);
    stem + Suffix
  }

  /** A name that is already lower case and free of white space only gains the
      suffix. */
  lemma FilenameOfPlainName(name: string)
    requires NoWhitespace(name)
    requires forall i :: 0 <= i < |name| ==> !('A' <= name[i] <= 'Z')
    ensures DownloadFilename(name) == name + Suffix
  {
    assert Lower(name) == name;
  }

  /** Two words separated by any white-space run are joined by a single '-'. */
  lemma ReplaceJoinsWords(first: string, run: string, second: string)
    requires NoWhitespace(first) && NoWhitespace(second)
    requires run != [] && AllWhitespace(run)
    ensures ReplaceWhitespaceRuns(first + run + second, '-') == first + "-" + second
  {
    var tail := run + second;
    assert ReplaceWhitespaceRuns(tail, '-') == ['-'] + second by {
      assert second == [] || !IsWhitespace(second[0]);
      RunBecomesOne(run, second, '-');
    }
    assert ReplaceWhitespaceRuns(first + tail, '-') == first + ReplaceWhitespaceRuns(tail, '-') by {
      ReplaceRunsCleanPrefix(first, tail, '-');
    }
    assert first + run + second == first + tail;
    assert first + (['-'] + second) == first + "-" + second;
  }

  /** Lower-casing leaves the '-' between two words in place. */
  lemma LowerJoin(first: string, second: string)
    ensures Lower(first + "-" + second) == Lower(first) + "-" + Lower(second)
  {
    assert first + "-" + second == first + (['-'] + second);
    LowerConcat(first, ['-'] + second);
    LowerConcat(['-'], second);
    assert Lower(['-']) == "-";
  }

  /** Two words separated by any white-space run are lower-cased and joined by a
      single '-'. */
  lemma FilenameJoinsWords(first: string, run: string, second: string)
    requires NoWhitespace(first) && NoWhitespace(second)
    requires run != [] && AllWhitespace(run)
    ensures DownloadFilename(first + run + second) == Lower(first) + "-" + Lower(second) + Suffix
  {
    ReplaceJoinsWords(first, run, second);
    LowerJoin(first, second);
  }

  /** A saved file: its name and the drawn document. */
  datatype Download = Download(filename: string, commands: seq<PdfGenerator.DrawCmd>)

  /** The notification shown after an attempt. */
  datatype Notice = PdfGenerated | PdfFailed

  /** The body of the `try` block: `generatePDF` (which may throw, as `fails` says)
      and, when it returns, the download of its document under the derived name. */
  method ExportPdf(e: Espositore, descriptionLines: seq<string>, today: string, fails: bool)
    returns (download: Option<Download>)
    ensures fails ==> download.None?
    ensures !fails ==> download == Some(Download(DownloadFilename(e.name), PdfGenerator.Layout(e, descriptionLines, today)))
  {
    if fails {
      return None;
    }
    var doc := PdfGenerator.GeneratePdf(e, descriptionLines, today);
    download := Some(Download(DownloadFilename(e.name), doc.commands));
  }
}
