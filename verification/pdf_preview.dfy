/** The result record of `processPDFPreview` in `src/lib/pdfProcessor.ts`. The
    pdf.js rendering is an input: the JPEG data URL it produced, or nothing
    when loading, the canvas context or rendering failed (the error is
    rethrown). */
module PdfPreview {
  import opened Wrappers
  import opened Text

  datatype Preview = Preview(filename: string, previewUrl: string, title: string)

  /** The rendering step threw; `processPDFPreview` logs and rethrows it. */
  datatype PreviewFailure = RenderFailed

  /** The separator replacement `/[-_]/g` → space, on one character. */
  function Spaced(c: char): char {
    if c == '-' || c == '_' then ' ' else c
  }

  /** `s.replace(/[-_]/g, ' ')`. */
  function SpaceAll(s: string): (t: string)
    ensures |t| == |s|
    ensures forall k :: 0 <= k < |t| ==> t[k] == Spaced(s[k])
  {
    seq(|s|, k requires 0 <= k < |s| => Spaced(s[k]))
  }

  /** `filename.replace('.pdf', '').replace(/[-_]/g, ' ')`. */
  function PreviewTitle(filename: string): (t: string)
    ensures forall k :: 0 <= k < |t| ==> t[k] != '-' && t[k] != '_'
    ensures !Contains(filename, ".pdf") ==>
              |t| == |filename| && forall k :: 0 <= k < |t| ==> t[k] == Spaced(filename[k])
    ensures Contains(filename, ".pdf") ==>
              var i := IndexOf(filename, ".pdf").value;
              && |t| == |filename| - 4
              && (forall k :: 0 <= k < i ==> t[k] == Spaced(filename[k]))
              && (forall k :: i <= k < |t| ==> t[k] == Spaced(filename[k + 4]))
  {
    TitleChars(filename);
    SpaceAll(RemoveFirst(filename, ".pdf"))
  }

  /** Around the removed `.pdf`, the title follows the file name shifted by four. */
  lemma TitleChars(filename: string)
    ensures Contains(filename, ".pdf") ==>
              var t := SpaceAll(RemoveFirst(filename, ".pdf"));
              var i := IndexOf(filename, ".pdf").value;
              && |t| == |filename| - 4
              && (forall k :: 0 <= k < i ==> t[k] == Spaced(filename[k]))
              && (forall k :: i <= k < |t| ==> t[k] == Spaced(filename[k + 4]))
  {
    if Contains(filename, ".pdf") {
      var i := IndexOf(filename, ".pdf").value;
      var stem := RemoveFirst(filename, ".pdf");
      CutAt(filename, ".pdf", stem, i);
    }
  }

  /** `processPDFPreview(pdfUrl, filename)`: on a successful rendering, the
      record with the file name unchanged, the rendered data URL and the title. */
  function ProcessPdfPreview(filename: string, rendered: Option<string>): (r: Result<Preview, PreviewFailure>)
    ensures r.Success? <==> rendered.Some?
    ensures r.Success? ==> r.value.filename == filename
    ensures r.Success? ==> r.value.previewUrl == rendered.value
    ensures r.Success? ==> r.value.title == PreviewTitle(filename)
  {
    match rendered
    case None => Failure(RenderFailed)
    case Some(url) => Success(Preview(filename, url, PreviewTitle(filename)))
  }

  /** The title of `<stem>.pdf` is the stem with its separators turned into
      spaces, when `.pdf` does not occur in the stem already. */
  lemma PreviewTitleOfPdf(stem: string)
    requires forall j :: 0 <= j < |stem| ==> !OccursAt(stem + ".pdf", ".pdf", j)
    ensures |PreviewTitle(stem + ".pdf")| == |stem|
    ensures forall k :: 0 <= k < |stem| ==> PreviewTitle(stem + ".pdf")[k] == Spaced(stem[k])
  {
    RemoveFirstSuffix(stem, ".pdf");
  }
}
