/** The fallback path that registers the PDF itself with the model
    provider (upload_pdf_to_gemini_file_api, app.py section "Gemini File
    Upload Fallback"): the bytes are staged in a temporary file, the file
    is registered, and the temporary file is removed in a `finally`. */
module Upload {
  import opened Wrappers

  /** The provider's handle for a registered file. */
  datatype FileHandle = FileHandle(name: string)

  /** What the environment does at each step of an upload. */
  datatype UploadEnv = UploadEnv(
    tempCreated: bool,                             // the temporary file could be created
    bytesWritten: bool,                            // the PDF bytes could be written to it
    registration: Result<FileHandle, ErrorInfo>,   // what the provider answers
    tempRemoved: bool)                             // the operating system removes the file when asked

  /** The value returned, whether an error was shown, and whether the
      temporary file is still on disk afterwards. */
  datatype UploadOutcome = UploadOutcome(fileRef: Option<FileHandle>, errorShown: bool, tempLeft: bool)

  /** The upload as the code is written: the temporary path is recorded
      only after the bytes are written, and the `finally` removes the file
      only when a path was recorded. A handle comes back exactly when every
      step succeeds; otherwise an error is shown and None is returned. The
      temporary file stays behind when the removal fails, and also when the
      write fails, because no path was recorded yet. */
  function UploadAsWritten(env: UploadEnv): (o: UploadOutcome)
    ensures o.fileRef.Some? <==> env.tempCreated && env.bytesWritten && env.registration.Success?
    ensures o.fileRef.Some? ==> o.fileRef.value == env.registration.value
    ensures o.errorShown <==> o.fileRef.None?
    ensures o.tempLeft <==> env.tempCreated && (!env.bytesWritten || !env.tempRemoved)
  {
    var tmpPath := env.tempCreated && env.bytesWritten;
    var fileRef := if tmpPath && env.registration.Success? then Some(env.registration.value) else None;
    var removed := tmpPath && env.tempRemoved;
    UploadOutcome(fileRef, fileRef.None?, env.tempCreated && !removed)
  }

  /** A failed write leaves the temporary file behind although the
      operating system would have removed it. */
  lemma WriteFailureLeaksTempFile(registration: Result<FileHandle, ErrorInfo>)
    ensures UploadAsWritten(UploadEnv(true, false, registration, true)).tempLeft
    ensures UploadAsWritten(UploadEnv(true, false, registration, true)).fileRef.None?
  {
  }

  /** The upload with the temporary path recorded as soon as the file
      exists: the same handle or error as the code as written, and the
      temporary file is removed on every exit path, unless the operating
      system refuses the removal (which the code deliberately ignores). */
  function UploadPdf(env: UploadEnv): (o: UploadOutcome)
    ensures o.fileRef == UploadAsWritten(env).fileRef && o.errorShown == UploadAsWritten(env).errorShown
    ensures o.fileRef.Some? <==> env.tempCreated && env.bytesWritten && env.registration.Success?
    ensures o.tempLeft <==> env.tempCreated && !env.tempRemoved
  {
    var tmpPath := env.tempCreated;
    var fileRef := if tmpPath && env.bytesWritten && env.registration.Success? then Some(env.registration.value) else None;
    var removed := tmpPath && env.tempRemoved;
    UploadOutcome(fileRef, fileRef.None?, env.tempCreated && !removed)
  }
}
