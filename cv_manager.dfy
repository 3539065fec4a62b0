/**
 * The CV page (src/pages/profile/CVManager.tsx): a chosen PDF is stored in the `cvs`
 * bucket under the user's folder and recorded in the `cvs` table.
 */
module CvManager {
  import opened Wrappers
  import opened Auth

  /** The selected file; only its name and MIME type are used. */
  datatype File = File(name: string, mimeType: string)

  const PdfType: string := "application/pdf"

  /** `${userId}/${file.name}`: the file's place in the bucket, inside the user's own folder. */
  function StoragePath(userId: string, fileName: string): (p: string)
    ensures |p| == |userId| + 1 + |fileName|
    ensures p[..|userId|] == userId && p[|userId|] == '/' && p[|userId| + 1..] == fileName
  {
    userId + "/" + fileName
  }

  /** Splits a path at its first `/` into folder and file name. */
  function SplitPath(p: string): (r: Option<(string, string)>)
    ensures r.Some? ==> '/' !in r.value.0 && StoragePath(r.value.0, r.value.1) == p
    ensures r.None? ==> '/' !in p
  {
    if p == [] then None
    else if p[0] == '/' then Some(("", p[1..]))
    else match SplitPath(p[1..])
      case None => None
      case Some((folder, name)) => Some(([p[0]] + folder, name))
  }

  /** The folder and name are recovered from the path when the user id holds no `/` (as a UUID does). */
  lemma SplitStoragePath(userId: string, fileName: string)
    requires '/' !in userId
    ensures SplitPath(StoragePath(userId, fileName)) == Some((userId, fileName))
  {
  }

  /** Two users, or two file names, never share a path. */
  lemma StoragePathInjective(u1: string, n1: string, u2: string, n2: string)
    requires '/' !in u1 && '/' !in u2
    requires StoragePath(u1, n1) == StoragePath(u2, n2)
    ensures u1 == u2 && n1 == n2
  {
  }

  /** The outcome of the first two guards. */
  datatype FileCheck = NoFile | NotPdf | Accepted(file: File)

  /** `files?.[0]` must exist and be of type `application/pdf`. */
  function CheckFile(file: Option<File>): (r: FileCheck)
    ensures r == NoFile <==> file.None?
    ensures r == NotPdf <==> file.Some? && file.value.mimeType != PdfType
    ensures r.Accepted? ==> file == Some(r.file) && r.file.mimeType == PdfType
  {
    match file
    case None => NoFile
    case Some(f) => if f.mimeType != PdfType then NotPdf else Accepted(f)
  }

  /** A row inserted into the `cvs` table. */
  datatype CvRecord = CvRecord(userId: string, fileUrl: string, title: string)

  /** The notifications the page raises. */
  datatype CvToast = InvalidType | Uploaded | UploadFailed

  /** Everything one upload attempt does. */
  datatype UploadReport = UploadReport(uploadPath: Option<string>, inserted: Option<CvRecord>,
                                       toast: Option<CvToast>)

  /** The page's state. */
  class CvPage {
    var isUploading: bool

    constructor ()
      ensures !isUploading
    {
      isUploading := false;
    }

    /**
     * `handleFileUpload`. `currentUser` is what `auth.getUser()` gives (a call that
     * throws is the same as no user), `upload` the reply of the storage upload,
     * `publicUrl` the bucket's `getPublicUrl` and `insert` the reply of the table insert.
     * Each failure ends the attempt with the error notification; `finally` clears
     * `isUploading` once the type check has passed.
     */
    method HandleFileUpload(file: Option<File>, currentUser: Option<User>, upload: Outcome,
                            publicUrl: string -> string, insert: Outcome) returns (report: UploadReport)
      modifies this
      ensures CheckFile(file) == NoFile ==>
                report == UploadReport(None, None, None) && isUploading == old(isUploading)
      ensures CheckFile(file) == NotPdf ==>
                report == UploadReport(None, None, Some(InvalidType)) && isUploading == old(isUploading)
      ensures CheckFile(file).Accepted? ==> !isUploading
      ensures report.uploadPath.Some? <==> CheckFile(file).Accepted? && currentUser.Some?
      ensures report.uploadPath.Some? ==>
                report.uploadPath.value == StoragePath(currentUser.value.id, file.value.name)
      ensures report.inserted.Some? <==> report.uploadPath.Some? && upload == Success
      ensures report.inserted.Some? ==>
                report.inserted.value ==
                  CvRecord(currentUser.value.id, publicUrl(report.uploadPath.value), file.value.name)
      ensures report.toast == Some(Uploaded) <==> report.inserted.Some? && insert == Success
      ensures CheckFile(file).Accepted? && report.toast != Some(Uploaded) ==> report.toast == Some(UploadFailed)
    {
      match CheckFile(file) {
        case NoFile =>
          return UploadReport(None, None, None);
        case NotPdf =>
          return UploadReport(None, None, Some(InvalidType));
        case Accepted(f) =>
          isUploading := true;
          report := UploadReport(None, None, Some(UploadFailed));
          if currentUser.Some? {
            var userId := currentUser.value.id;
            var path := StoragePath(userId, f.name);
            report := report.(uploadPath := Some(path));
            if upload == Success {
              var row := CvRecord(userId, publicUrl(path), f.name);
              report := report.(inserted := Some(row));
              if insert == Success {
                report := report.(toast := Some(Uploaded));
              }
            }
          }
          isUploading := false;
      }
    }
  }
}
