/** The landing screen (components/Hero.tsx): a drop zone that accepts a
    dropped PDF, and a hidden file input behind the "Select PDF" button. */
module Hero {
  import opened Wrappers
  import opened Files

  const PdfMimeType: string := "application/pdf"
  const NotPdfAlert: string := "Please upload a PDF file."

  /** What a drop does: hand a file to `onFileSelect`, raise an alert, or
      nothing at all. */
  datatype DropOutcome = Selected(file: File) | Alerted(message: string) | Ignored

  /** `handleDrop`: only the first dropped file is looked at; it is
      selected when its type is exactly "application/pdf" and otherwise
      the user is alerted. */
  function HandleDrop(files: seq<File>): (r: DropOutcome)
    ensures r.Ignored? <==> |files| == 0
    ensures r.Selected? <==> |files| > 0 && files[0].mimeType == PdfMimeType
    ensures r.Alerted? <==> |files| > 0 && files[0].mimeType != PdfMimeType
    ensures r.Selected? ==> r.file == files[0]
    ensures r.Alerted? ==> r.message == NotPdfAlert
  {
    if |files| == 0 then Ignored
    else if files[0].mimeType == PdfMimeType then Selected(files[0])
    else Alerted(NotPdfAlert)
  }

  /** Files after the first never influence a drop. */
  lemma DropIgnoresLaterFiles(first: File, rest: seq<File>, rest': seq<File>)
    ensures HandleDrop([first] + rest) == HandleDrop([first] + rest')
    ensures HandleDrop([first] + rest) == HandleDrop([first])
  {
  }

  /** The file input's `onChange`: the first chosen file, if any, is
      selected with no type check (the `accept` attribute only filters the
      browser's dialog). */
  function HandleInputChange(files: Option<seq<File>>): (r: Option<File>)
    ensures r.Some? <==> files.Some? && |files.value| > 0
    ensures r.Some? ==> r.value == files.value[0]
  {
    if files.Some? && |files.value| > 0 then Some(files.value[0]) else None
  }

  /** The two paths disagree on every non-PDF file: the drop zone alerts,
      the file input selects it. */
  lemma InputPathSkipsTypeCheck(files: seq<File>)
    requires |files| > 0 && files[0].mimeType != PdfMimeType
    ensures HandleDrop(files) == Alerted(NotPdfAlert)
    ensures HandleInputChange(Some(files)) == Some(files[0])
  {
  }

  /** On a PDF the two paths agree. */
  lemma PathsAgreeOnPdf(files: seq<File>)
    requires |files| > 0 && files[0].mimeType == PdfMimeType
    ensures HandleDrop(files) == Selected(HandleInputChange(Some(files)).value)
  {
  }
}
