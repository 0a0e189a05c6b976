/**
 * What the handlers receive besides the database: form fields as the request
 * parser returns them, the seller gate, and the image uploader.
 */
module Requests {
  import opened Wrappers
  import opened Tables

  /**
   * A text form field is usable when it is there and not the empty string
   * (JavaScript truthiness of `formData.get(...)` on a string or `null`).
   */
  predicate Present(field: Option<string>) {
    field.Some? && field.value != ""
  }

  /** An uploaded file: its name and its bytes. */
  datatype Image = Image(fileName: string, bytes: seq<bv8>)

  /** Where an image is stored; each folder comes with its own transformation. */
  datatype Folder = LogosFolder | ProductsFolder

  /**
   * Upload an image into a folder and derive its optimised URL; `None` when
   * the upload throws.
   */
  type Uploader = (Image, Folder) -> Option<Url>

  /** The seller gate: the id of the store the user may act for, if any. */
  type SellerGate = UserId -> Option<StoreId>

  /** Errors that end in a handler's catch-all branch. */
  datatype Fault =
    | UploadFailed
    | UniqueViolation
    | RecordNotFound
    | ReferenceError(name: string)
}
