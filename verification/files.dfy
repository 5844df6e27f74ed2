/** The browser's `File` as far as the application looks at it: a name
    and a MIME type. The contents are only ever handed to PDF.js. */
module Files {

  datatype File = File(name: string, mimeType: string)
}
