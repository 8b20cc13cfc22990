/** The exceptions the web API can raise and catch. Each one's `Message` is
    what the controller copies into the `Reason` of a `Failed` response. */
module Failures {
  datatype Error =
    | NullReference            // a member used through a null reference
    | IndexOutOfRange          // an array index past the end (`words[1]`)
    | ArgumentOutOfRange       // a list index past the end (`fileResult[0]`)
    | MoreThanOneElement       // `SingleOrDefault` over two or more elements
    | DuplicateDocument        // raised on purpose by `IsDuplicate`
    | BadDateTime              // `DateTime.Parse` refused the item's text
    | BadJson(message: string) // the JSON reader refused the keyword payload
    | Archive(message: string) // the ZIP archive could not be opened
    | DirectoryNotFound(path: string) // a file written into a missing directory, or a missing directory listed
    | FileNotFound(path: string)      // a missing file opened for reading
    | FileExists(path: string)        // a directory created where a file is (`IOException`)
    | AccessDenied(path: string)      // a file written where a directory is (`UnauthorizedAccessException`)
    | Refused(message: string)        // the platform refused the connection

  /** `ArgumentOutOfRangeException`'s default text for a list index. */
  const ArgumentOutOfRangeText: string :=
    "Index was out of range. Must be non-negative and less than the size of the collection.\r\nParameter name: index"

  /** The exception's `Message`: the .NET runtime's default texts, and the
      text `IsDuplicate` passes to its exception. Messages produced outside the
      web API (the JSON reader's, the ZIP reader's, the platform's) are
      carried as they come. */
  function Message(e: Error): string
  {
    match e
    case NullReference => "Object reference not set to an instance of an object."
    case IndexOutOfRange => "Index was outside the bounds of the array."
    case ArgumentOutOfRange => ArgumentOutOfRangeText
    case MoreThanOneElement => "Sequence contains more than one element"
    case DuplicateDocument => "Document with same index data already exists!"
    case BadDateTime => "String was not recognized as a valid DateTime."
    case BadJson(m) => m
    case Archive(m) => m
    case DirectoryNotFound(p) => "Could not find a part of the path '" + p + "'."
    case FileNotFound(p) => "Could not find file '" + p + "'."
    case FileExists(p) => "The file '" + p + "' already exists."
    case AccessDenied(p) => "Access to the path '" + p + "' is denied."
    case Refused(m) => m
  }

  /** A message the runtime or the web API writes never reads as one of the
      two reasons of an `OK` answer. */
  lemma MessageIsNotReason(e: Error)
    requires !e.BadJson? && !e.Archive? && !e.Refused?
    ensures Message(e) != "Succesfully" && Message(e) != "Not result"
  {
    match e
    case ArgumentOutOfRange => LongMessage();
    case _ =>
  }

  lemma LongMessage()
    ensures |ArgumentOutOfRangeText| > 11
  {
  }
}
