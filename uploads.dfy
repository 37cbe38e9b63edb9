/**
 * The resort image upload of server.js: the directory multer stores the
 * images in (named after the sanitized resort name), the five required image
 * fields, the image paths recorded and the resort saved.
 */
module Uploads {
  import opened Form
  import opened Http
  import opened UserModel

  /** The default directory name when the body has no name (line 65). */
  const DefaultDirName: string := "Unnamed_Resort"
  /** The default resort name stored when the body has no name (line 112). */
  const DefaultResortName: string := "Unnamed Resort"

  /** `[a-zA-Z0-9]`. */
  predicate IsAlnum(c: char)
  {
    ('a' <= c <= 'z') || ('A' <= c <= 'Z') || ('0' <= c <= '9')
  }

  /** `[A-Za-z0-9_]`: the characters a sanitized name may hold. */
  predicate IsDirChar(c: char)
  {
    IsAlnum(c) || c == '_'
  }

  /** `s.replace(/[^a-zA-Z0-9]/g, '_')`: every other character becomes an underscore. */
  function Sanitize(s: string): (r: string)
    ensures |r| == |s|
    ensures forall i :: 0 <= i < |s| ==> r[i] == (if IsAlnum(s[i]) then s[i] else '_')
    ensures forall i :: 0 <= i < |r| ==> IsDirChar(r[i])
  {
    if s == [] then []
    else [if IsAlnum(s[0]) then s[0] else '_'] + Sanitize(s[1..])
  }

  /** Sanitizing twice is sanitizing once. */
  lemma SanitizeIdempotent(s: string)
    ensures Sanitize(Sanitize(s)) == Sanitize(s)
  {
  }

  /** A name is left unchanged exactly when it already holds only `[A-Za-z0-9_]`. */
  lemma SanitizeFixedPoint(s: string)
    ensures Sanitize(s) == s <==> forall i :: 0 <= i < |s| ==> IsDirChar(s[i])
  {
    if forall i :: 0 <= i < |s| ==> IsDirChar(s[i]) {
      assert forall i :: 0 <= i < |s| ==> Sanitize(s)[i] == s[i];
    }
  }

  /** The default directory name is already sanitized. */
  lemma DefaultDirNameIsClean()
    ensures Sanitize(DefaultDirName) == DefaultDirName
  {
    var s := DefaultDirName;
    assert |s| == 14;
    forall i | 0 <= i < |s| ensures IsDirChar(s[i]) {
    }
    SanitizeFixedPoint(s);
  }

  /** The directory name `resortStorage.destination` uses: the sanitized name, or "Unnamed_Resort". */
  function UploadDir(name: Option<string>): (d: string)
    ensures !Present(name) ==> d == DefaultDirName
    ensures Present(name) ==> d == Sanitize(name.value)
    ensures d != [] && forall i :: 0 <= i < |d| ==> IsDirChar(d[i])
  {
    DefaultDirNameIsClean();
    Sanitize(OrElse(name, DefaultDirName))
  }

  /** `path.join('uploads', dir)`: where the images are written. */
  function StorageDir(name: Option<string>): string
  {
    "uploads/" + UploadDir(name)
  }

  /** Every upload directory sits directly under `uploads/` and its name holds only letters, digits and `_`. */
  lemma StorageDirIsClean(name: Option<string>)
    ensures var d := StorageDir(name);
            |d| > 8 && d[..8] == "uploads/" &&
            forall i :: 8 <= i < |d| ==> IsDirChar(d[i])
  {
    Under("uploads/", UploadDir(name));
  }

  /** The characters of `p + u` past `p` are those of `u`. */
  lemma Under(p: string, u: string)
    ensures (p + u)[..|p|] == p
    ensures forall i :: |p| <= i < |p + u| ==> (p + u)[i] == u[i - |p|]
  {
  }

  /** The five image fields the upload accepts, one file each. */
  const ImageFields: seq<string> := ["image", "image2", "image3", "image4", "image5"]

  /** One uploaded file: the form field it came in and the name multer stored it under. */
  datatype Part = Part(field: string, filename: string)

  function Fields(parts: seq<Part>): (r: seq<string>)
    ensures |r| == |parts|
    ensures forall i :: 0 <= i < |parts| ==> r[i] == parts[i].field
  {
    if parts == [] then [] else [parts[0].field] + Fields(parts[1..])
  }

  ghost predicate Distinct(xs: seq<string>)
  {
    forall i, j :: 0 <= i < j < |xs| ==> xs[i] != xs[j]
  }

  /** multer's `.fields()` with `maxCount: 1`: every file is in an image field not seen before. */
  predicate MulterAccepts(fields: seq<string>)
  {
    forall i :: 0 <= i < |fields| ==> fields[i] in ImageFields && fields[i] !in fields[..i]
  }

  /** `files.image && files.image2 && ... && files.image5`. */
  predicate AllImagesPresent(fields: seq<string>)
  {
    forall f :: f in ImageFields ==> f in fields
  }

  /**
   * The answer to an upload's files, before any record is built: multer
   * rejects a file in any other field, or a second file in one field, with
   * "Unexpected field"; then every image field must have a file.
   */
  function UploadRejection(parts: seq<Part>): (e: Option<string>)
    ensures e.None? <==> MulterAccepts(Fields(parts)) && AllImagesPresent(Fields(parts))
    ensures !MulterAccepts(Fields(parts)) ==> e == Some("Unexpected field")
    ensures MulterAccepts(Fields(parts)) && !AllImagesPresent(Fields(parts)) ==> e == Some("All images are required")
  {
    var fields := Fields(parts);
    if !MulterAccepts(fields) then Some("Unexpected field")
    else if !AllImagesPresent(fields) then Some("All images are required")
    else None
  }

  /** What multer accepts has no field twice. */
  lemma MulterAcceptsDistinct(fields: seq<string>)
    requires MulterAccepts(fields)
    ensures Distinct(fields)
  {
    forall i, j | 0 <= i < j < |fields| ensures fields[i] != fields[j] {
      assert fields[i] in fields[..j];
    }
  }

  /** A sequence of distinct names has as many distinct elements as entries. */
  lemma {:induction false} DistinctCard(xs: seq<string>)
    requires Distinct(xs)
    ensures |set x | x in xs| == |xs|
  {
    if xs != [] {
      var rest := xs[1..];
      assert Distinct(rest) by {
        forall i, j | 0 <= i < j < |rest| ensures rest[i] != rest[j] {
          assert rest[i] == xs[i + 1] && rest[j] == xs[j + 1];
        }
      }
      DistinctCard(rest);
      assert xs[0] !in rest by {
        forall i | 0 <= i < |rest| ensures rest[i] != xs[0] {
          assert rest[i] == xs[i + 1];
        }
      }
      assert (set x | x in xs) == {xs[0]} + (set x | x in rest);
    }
  }

  /** An accepted upload has exactly one file per image field: five files. */
  lemma AcceptedUploadHasFiveFiles(parts: seq<Part>)
    requires UploadRejection(parts).None?
    ensures |parts| == |ImageFields|
  {
    var fields := Fields(parts);
    MulterAcceptsDistinct(fields);
    DistinctCard(fields);
    assert Distinct(ImageFields);
    DistinctCard(ImageFields);
    assert (set x | x in fields) == (set x | x in ImageFields);
  }

  /**
   * The image paths as server.js:107-109 builds them: from `req.body.name`
   * without the fallback of line 65. An absent name throws a TypeError (None:
   * the handler answers 500).
   */
  function ImagePathsAsWritten(name: Option<string>, parts: seq<Part>): (r: Option<seq<string>>)
    ensures name.None? <==> r.None?
    ensures r.Some? ==> |r.value| == |parts|
  {
    if name.None? then None
    else Some(seq(|parts|, i requires 0 <= i < |parts| => "/uploads/" + Sanitize(name.value) + "/" + parts[i].filename))
  }

  /** With an empty name multer writes the files to uploads/Unnamed_Resort ... */
  lemma EmptyNameStorageDir()
    ensures StorageDir(Some("")) == "uploads/" + DefaultDirName
  {
  }

  /** A recorded path built from an empty name: "/uploads/" then directly "/" and the file name. */
  lemma EmptyNameWrittenPath(parts: seq<Part>, i: nat)
    requires i < |parts|
    ensures ImagePathsAsWritten(Some(""), parts).value[i] == "/uploads/" + "/" + parts[i].filename
    ensures |ImagePathsAsWritten(Some(""), parts).value[i]| == |parts[i].filename| + 10
  {
    assert Sanitize("") == "";
    assert "/uploads/" + "" == "/uploads/";
  }

  /** The public path of a file stored for an empty name is 14 characters longer. */
  lemma EmptyNameStoredPath(filename: string)
    ensures |"/" + StorageDir(Some("")) + "/" + filename| == |filename| + 24
  {
    EmptyNameStorageDir();
  }

  /**
   * ... while every path server.js records for them has an empty directory
   * segment, so none of them names the stored file.
   */
  lemma EmptyNamePathMismatch(parts: seq<Part>, i: nat)
    requires i < |parts|
    ensures ImagePathsAsWritten(Some(""), parts).value[i] == "/uploads/" + "/" + parts[i].filename
    ensures ImagePathsAsWritten(Some(""), parts).value[i] != "/" + StorageDir(Some("")) + "/" + parts[i].filename
  {
    EmptyNameWrittenPath(parts, i);
    EmptyNameStoredPath(parts[i].filename);
  }

  /**
   * The image paths recorded for the stored files: each is the public path
   * of the file in the directory multer wrote it to, in the order the files
   * arrived.
   */
  function ImagePaths(name: Option<string>, parts: seq<Part>): (r: seq<string>)
    ensures |r| == |parts|
    ensures forall i :: 0 <= i < |parts| ==> r[i] == "/" + StorageDir(name) + "/" + parts[i].filename
  {
    seq(|parts|, i requires 0 <= i < |parts| => "/uploads/" + UploadDir(name) + "/" + parts[i].filename)
  }

  /** Whenever the body has a non-empty name, the corrected paths are the ones server.js builds. */
  lemma ImagePathsAgreeWhenNamed(name: Option<string>, parts: seq<Part>)
    requires Present(name)
    ensures ImagePathsAsWritten(name, parts) == Some(ImagePaths(name, parts))
  {
    var written := ImagePathsAsWritten(name, parts).value;
    var intended := ImagePaths(name, parts);
    assert |written| == |intended|;
    forall i | 0 <= i < |parts| ensures written[i] == intended[i] {
      assert written[i] == "/uploads/" + Sanitize(name.value) + "/" + parts[i].filename;
      assert intended[i] == "/uploads/" + UploadDir(name) + "/" + parts[i].filename;
    }
    assert written == intended;
  }

  datatype ResortForm = ResortForm(
    name: Option<string>,
    pax: Option<string>,
    priceMin: Option<string>,
    priceMax: Option<string>,
    details: Option<string>)

  /** A saved resort: the body's fields, the image paths and the moderator who uploaded it. */
  datatype Resort = Resort(
    id: nat,
    name: string,
    pax: Option<string>,
    priceMin: Option<string>,
    priceMax: Option<string>,
    details: Option<string>,
    images: seq<string>,
    moderatorId: UserId)

  /** The resort collection written by `/api/uploads`. */
  class ResortCatalog {
    var resorts: seq<Resort>

    constructor ()
      ensures resorts == []
    {
      resorts := [];
    }

    /**
     * The `/api/uploads` handler, run after `authenticate` let `requester`
     * through: a rejected set of files answers 400 and saves nothing;
     * otherwise one resort is saved with five image paths and the requester
     * as its moderator.
     */
    method Upload(requester: User, form: ResortForm, parts: seq<Part>) returns (reply: Reply<Resort>)
      modifies this
      ensures UploadRejection(parts).Some? ==>
                reply == Error(400, UploadRejection(parts).value) && resorts == old(resorts)
      ensures UploadRejection(parts).None? ==>
                reply.Ok? && reply.status == 200 && resorts == old(resorts) + [reply.value] &&
                reply.value == Resort(|old(resorts)|, OrElse(form.name, DefaultResortName),
                                      form.pax, form.priceMin, form.priceMax, form.details,
                                      ImagePaths(form.name, parts), requester.id) &&
                |reply.value.images| == |ImageFields|
    {
      var rejection := UploadRejection(parts);
      if rejection.Some? {
        return Error(400, rejection.value);
      }
      AcceptedUploadHasFiveFiles(parts);
      var images := ImagePaths(form.name, parts);
      var resort := Resort(|resorts|, OrElse(form.name, DefaultResortName),
                           form.pax, form.priceMin, form.priceMax, form.details,
                           images, requester.id);
      resorts := resorts + [resort];
      reply := Ok(200, resort);
    }
  }
}
