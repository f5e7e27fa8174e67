/** Failure-carrying values: Java's `null` becomes `Option`, and a thrown
    exception becomes the `Err` half of a `Result`. */
module Results {

  /** A possibly-null reference. */
  datatype Option<+T> = None | Some(value: T) {
    predicate IsFailure() { None? }

    function PropagateFailure<U>(): Option<U>
      requires None?
    {
      None
    }

    function Extract(): T
      requires Some?
    {
      value
    }
  }

  /** The exception classes the importer raises or lets through. */
  datatype Kind =
    | RuntimeError      // DataImporterRuntimeException
    | ReaderError       // DataReaderException
    | CoreError         // the host platform's CoreException
    | NullReference       // a dereference of null
    | NumberFormat      // BigDecimal rejecting its text
    | IndexOutOfBounds  // List.get past the end
    | Ole2NotOfficeXml  // the library's OLE2NotOfficeXmlFileException: an XLS read as XLSX
    | NotOfficeXml      // the library's NotOfficeXmlFileException: neither XLS nor XLSX
    | RecordFormat      // the library's RecordFormatException: an unreadable record
    | EncryptedDocument // the library's EncryptedDocumentException
    | WorkbookError     // any other failure while opening a workbook, such as an IOException

  /** A thrown exception: its class, its message and the exception it wraps. */
  datatype Failure = Failure(kind: Kind, message: string, cause: Option<Failure>)

  datatype Result<+T> = Ok(value: T) | Err(failure: Failure) {
    predicate IsFailure() { Err? }

    function PropagateFailure<U>(): Result<U>
      requires Err?
    {
      Err(failure)
    }

    function Extract(): T
      requires Ok?
    {
      value
    }
  }

  /** `throw new X(message)` */
  function Raise<T>(kind: Kind, message: string): Result<T> {
    Err(Failure(kind, message, None))
  }

  /** `new X(message, cause)` */
  function Wrap(kind: Kind, message: string, cause: Failure): Failure {
    Failure(kind, message, Some(cause))
  }

  /** A dereference of null; the JVM composes the message, so the model keeps it empty. */
  const NullDereference := Failure(NullReference, "", None)

  /** Java's string conversion of a String that may be null. */
  function JavaText(s: Option<string>): string {
    match s
    case None => "null"
    case Some(t) => t
  }
}
