/** The CV file handling of the re-link job: resolving the signed URL from
    the partner API's first response, picking a file extension from the
    content type, and naming the object stored in Cloud Storage. */
module CvFiles {
  import opened Text
  import opened Base
  import opened Columns

  /** GCS_BUCKET_NAME and GCS_CV_DIR. */
  const Bucket := "recruitment-engine-cvs-sp-260625"
  const CvDir := "candidate-cvs/"

  /** CONTENT_TYPE_TO_EXTENSION. */
  const ContentTypeToExtension: map<string, string> := map[
    "application/pdf" := ".pdf",
    "application/msword" := ".doc",
    "application/vnd.openxmlformats-officedocument.wordprocessingml.document" := ".docx",
    "text/plain" := ".txt",
    "image/jpeg" := ".jpg",
    "image/png" := ".png"
  ]

  /** `CONTENT_TYPE_TO_EXTENSION.get(content_type, ".pdf")`. */
  function ExtensionFor(contentType: string): (ext: string)
  {
    if contentType in ContentTypeToExtension then ContentTypeToExtension[contentType] else ".pdf"
  }

  /** `headers.get("Content-Type", "application/pdf")`: a response without
      the header is taken to be a PDF. */
  function ContentTypeOf(header: Option<string>): (contentType: string)
    ensures header.None? ==> contentType == "application/pdf"
    ensures header.Some? ==> contentType == header.value
  {
    if header.Some? then header.value else "application/pdf"
  }

  /** The content type each non-PDF extension stands for; the reverse of
      the table. */
  function ContentTypeFor(ext: string): string
  {
    if ext == ".doc" then "application/msword"
    else if ext == ".docx" then "application/vnd.openxmlformats-officedocument.wordprocessingml.document"
    else if ext == ".txt" then "text/plain"
    else if ext == ".jpg" then "image/jpeg"
    else if ext == ".png" then "image/png"
    else "application/pdf"
  }

  /** Every listed content type gets its own extension, which names it back;
      every other type gets ".pdf". */
  lemma ExtensionRoundTrip(contentType: string)
    ensures contentType in ContentTypeToExtension ==> ContentTypeFor(ExtensionFor(contentType)) == contentType
    ensures contentType !in ContentTypeToExtension ==> ExtensionFor(contentType) == ".pdf"
  {
  }

  /** The extension is ".pdf" exactly for PDFs and unlisted types, and is
      always one of the six listed extensions. */
  lemma ExtensionIsPdf(contentType: string)
    ensures ExtensionFor(contentType) == ".pdf" <==>
      contentType == "application/pdf" || contentType !in ContentTypeToExtension
    ensures ExtensionFor(contentType) in ContentTypeToExtension.Values
  {
    assert ContentTypeToExtension["application/pdf"] == ".pdf";
    if contentType in ContentTypeToExtension {
      ExtensionRoundTrip(contentType);
    }
  }

  /** What the first request of download_cv_from_api answered: the status
      code, the Location and Content-Type headers, and what
      `r.json().get("data", {}).get("cvUrl")` gives (Err when the body is not
      JSON or its data is not an object; Null when cvUrl is absent). */
  datatype FirstResponse = FirstResponse(
    status: int, location: Option<string>, contentType: Option<string>, cvUrl: Result<Value>)

  /** The signed URL the first response points to, if any. A 302 gives its
      Location header; a 200 whose Content-Type mentions application/json
      gives the JSON cvUrl; anything else, a body that fails to parse, or a
      falsy URL gives none. */
  function SignedUrl(first: FirstResponse): (url: Option<Value>)
  {
    var found :=
      if first.status == 302 then
        (if first.location.Some? then Some(Str(first.location.value)) else Some(Null))
      else if first.status == 200 && Contains(if first.contentType.Some? then first.contentType.value else "", "application/json") then
        (if first.cvUrl.Ok? then Some(first.cvUrl.value) else None)
      else None;
    if found.Some? && Truthy(found.value) then found else None
  }

  /** A URL comes only from a 302's non-empty Location or from a 200 JSON
      response's truthy cvUrl, and each of those does give one. */
  lemma SignedUrlCases(first: FirstResponse)
    ensures SignedUrl(first).Some? <==>
      || (first.status == 302 && first.location.Some? && first.location.value != "")
      || (first.status == 200 && first.contentType.Some?
          && Contains(first.contentType.value, "application/json")
          && first.cvUrl.Ok? && Truthy(first.cvUrl.value))
    ensures first.status == 302 && SignedUrl(first).Some? ==> SignedUrl(first).value == Str(first.location.value)
    ensures first.status == 200 && SignedUrl(first).Some? ==> first.cvUrl == Ok(SignedUrl(first).value)
  {
    if first.status == 200 && first.contentType.None? {
      assert !Contains("", "application/json");
    }
  }

  /** The second request, to the signed URL: the body and Content-Type
      header, or Err when it raised or returned an error status. */
  datatype FileResponse = FileResponse(content: seq<bv8>, contentType: Option<string>)

  /** The dictionary download_cv_from_api returns. */
  datatype Download = Download(data: seq<bv8>, contentType: string, extension: string)

  /** download_cv_from_api: None unless a signed URL was found and fetching it
      succeeded. */
  function DownloadCv(first: FirstResponse, file: Result<FileResponse>): (d: Option<Download>)
  {
    if SignedUrl(first).None? || file.Err? then None
    else
      var contentType := ContentTypeOf(file.value.contentType);
      Some(Download(file.value.content, contentType, ExtensionFor(contentType)))
  }

  /** A download carries the fetched bytes, their content type (PDF when the
      header is missing) and the extension that type maps to. */
  lemma DownloadCvResult(first: FirstResponse, file: Result<FileResponse>)
    ensures DownloadCv(first, file).Some? <==> SignedUrl(first).Some? && file.Ok?
    ensures DownloadCv(first, file).Some? ==>
      var d := DownloadCv(first, file).value;
      && d.data == file.value.content
      && d.contentType == ContentTypeOf(file.value.contentType)
      && d.extension == ExtensionFor(d.contentType)
      && (file.value.contentType.None? ==> d.contentType == "application/pdf" && d.extension == ".pdf")
      && ContentTypeFor(d.extension) == (if d.contentType in ContentTypeToExtension then d.contentType else "application/pdf")
  {
    if DownloadCv(first, file).Some? {
      ExtensionRoundTrip(DownloadCv(first, file).value.contentType);
    }
  }

  /** `f"{job_ref_number}-{first_name}-{last_name}-{cv_id}-{int(time.time())}{extension}"`. */
  function CvFileName(row: Row, clock: int, ext: string): (name: string)
  {
    var head := Show(Get(row, JobRefNumber)) + "-";
    var middle := Show(Get(row, FirstName)) + "-" + Show(Get(row, LastName)) + "-" + Show(Get(row, CvId));
    head + middle + ("-" + IntToString(clock) + ext)
  }

  /** The file name starts with the job reference and ends with the time
      stamp and the extension. */
  lemma CvFileNameParts(row: Row, clock: int, ext: string)
    ensures var name := CvFileName(row, clock, ext);
      var tail := "-" + IntToString(clock) + ext;
      && StartsWith(name, Show(Get(row, JobRefNumber)) + "-")
      && |tail| <= |name| && name[|name| - |tail|..] == tail
  {
    var head := Show(Get(row, JobRefNumber)) + "-";
    var middle := Show(Get(row, FirstName)) + "-" + Show(Get(row, LastName)) + "-" + Show(Get(row, CvId));
    var tail := "-" + IntToString(clock) + ext;
    ConcatParts(head, middle);
    ConcatParts(head + middle, tail);
  }

  /** A concatenation starts with its left part and ends with its right. */
  lemma ConcatParts(a: string, b: string)
    ensures (a + b)[..|a|] == a && (a + b)[|a|..] == b
  {
  }

  function PathPrefix(): string
  {
    "gs://" + Bucket + "/" + CvDir
  }

  /** What upload_cv_to_gcs returns for an object stored under GCS_CV_DIR. */
  function GcsPath(fileName: string): (path: string)
    ensures StartsWith(path, PathPrefix())
  {
    PathPrefix() + fileName
  }

  /** The object name read back from a path. */
  function FileNameOf(path: string): string
    requires StartsWith(path, PathPrefix())
  {
    path[|PathPrefix()|..]
  }

  lemma GcsPathRoundTrip(fileName: string)
    ensures FileNameOf(GcsPath(fileName)) == fileName
  {
    assert GcsPath(fileName)[|PathPrefix()|..] == fileName;
  }
}
