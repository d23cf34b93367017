/**
 * What both document controllers know about an uploaded file, and the check
 * they both run before processing it: the content type first, then the size.
 */
module Uploads {
  import opened Text

  /** Raw file contents. */
  type Bytes = seq<bv8>

  /** The parts of FastAPI's `UploadFile` the controllers read. */
  datatype UploadFile = UploadFile(contentType: string, size: int, content: Bytes)

  /**
   * `validate_file`: a disallowed content type is rejected before the size is
   * looked at, and the size is rejected only when it is strictly above the maximum.
   */
  function ValidateFile(file: UploadFile, allowedTypes: seq<string>, maxFileSize: int): (verdict: (bool, string))
    ensures verdict.0 <==> file.contentType in allowedTypes && file.size <= maxFileSize
    ensures verdict.0 ==> verdict.1 == ""
    ensures file.contentType !in allowedTypes ==>
      verdict.1 == "File type " + file.contentType + " is not allowed."
    ensures file.contentType in allowedTypes && file.size > maxFileSize ==>
      verdict.1 == "File size exceeds the maximum limit of " + IntToString(maxFileSize) + " bytes."
  {
    if file.contentType !in allowedTypes then
      (false, "File type " + file.contentType + " is not allowed.")
    else if file.size > maxFileSize then
      (false, "File size exceeds the maximum limit of " + IntToString(maxFileSize) + " bytes.")
    else
      (true, "")
  }
}
