/** The upload middleware of middleware/upload.js: the extension Node's
    `path.extname` reads from a client file name, the image and attachment type
    filters (unanchored regular-expression alternatives), the name a stored file
    receives, and the size and count limits of the three multer configurations.
    The clock and the random number in the stored name are parameters; the disk
    storage itself is not modelled. */
module Upload {
  import opened Common

  // ---------------------------------------------------------------------------
  // path.extname (POSIX)

  /** The position of the last '.' in `s`. */
  function LastDot(s: string): (r: Option<nat>)
    ensures r.Some? ==> r.value < |s| && s[r.value] == '.'
    ensures r.Some? ==> forall k :: r.value < k < |s| ==> s[k] != '.'
    ensures r.None? <==> forall k :: 0 <= k < |s| ==> s[k] != '.'
  {
    if s == [] then None
    else if s[|s| - 1] == '.' then Some(|s| - 1)
    else LastDot(s[..|s| - 1])
  }

  /** `s` without its trailing slashes. */
  function DropTrailingSlashes(s: string): (r: string)
    ensures |r| <= |s| && r == s[..|r|]
    ensures r != [] ==> r[|r| - 1] != '/'
    ensures forall k :: |r| <= k < |s| ==> s[k] == '/'
  {
    if s != [] && s[|s| - 1] == '/' then DropTrailingSlashes(s[..|s| - 1]) else s
  }

  /** The part of `s` after its last slash. */
  function AfterLastSlash(s: string): (r: string)
    ensures |r| <= |s| && r == s[|s| - |r|..]
    ensures forall k :: 0 <= k < |r| ==> r[k] != '/'
    ensures |r| < |s| ==> s[|s| - |r| - 1] == '/'
  {
    if s == [] || s[|s| - 1] == '/' then [] else AfterLastSlash(s[..|s| - 1]) + [s[|s| - 1]]
  }

  /** The last path segment, trailing slashes ignored. */
  function BaseName(p: string): string {
    AfterLastSlash(DropTrailingSlashes(p))
  }

  /** `path.extname(p)`: from the last '.' of the last segment to its end; empty when
      the segment has no '.', when its only leading '.' is the last one (a dot file
      such as `.bashrc`), or when the segment is `..`. */
  function ExtName(p: string): string {
    var b := BaseName(p);
    match LastDot(b)
    case None => ""
    case Some(d) => if d == 0 || b == ".." then "" else b[d..]
  }

  /** An extension is empty or a '.' followed by characters that are neither '.' nor '/'. */
  predicate ExtensionShape(e: string) {
    e == "" || (e[0] == '.' && forall k :: 0 <= k < |e| ==> e[k] != '/' && (k > 0 ==> e[k] != '.'))
  }

  lemma ExtNameShape(p: string)
    ensures ExtensionShape(ExtName(p))
  {
    var b := BaseName(p);
    var d := LastDot(b);
    if d.Some? && d.value != 0 && b != ".." {
      var e := b[d.value..];
      assert ExtName(p) == e;
      forall k | 0 <= k < |e| ensures e[k] != '/' && (k > 0 ==> e[k] != '.') {
        assert e[k] == b[d.value + k];
      }
    }
  }

  /** A name without slashes is its own last segment. */
  lemma SlashFreeBaseName(s: string)
    requires forall k :: 0 <= k < |s| ==> s[k] != '/'
    ensures BaseName(s) == s
  {
    assert DropTrailingSlashes(s) == s;
    var r := AfterLastSlash(s);
    assert |r| == |s|;
  }

  /** The last '.' of a dot-free name followed by an extension starts the extension. */
  lemma LastDotOfPrefixed(prefix: string, e: string)
    requires forall k :: 0 <= k < |prefix| ==> prefix[k] != '.'
    requires e != [] && ExtensionShape(e)
    ensures LastDot(prefix + e) == Some(|prefix|)
  {
    var s := prefix + e;
    var d := LastDot(s);
    assert s[|prefix|] == '.';
    forall k | |prefix| < k < |s| ensures s[k] != '.' {
      assert s[k] == e[k - |prefix|];
    }
  }

  /** A name without slashes and dots, followed by an extension, has that extension. */
  lemma ExtNameOfPrefixed(prefix: string, e: string)
    requires prefix != []
    requires forall k :: 0 <= k < |prefix| ==> prefix[k] != '/' && prefix[k] != '.'
    requires ExtensionShape(e)
    ensures ExtName(prefix + e) == e
  {
    var s := prefix + e;
    forall k | 0 <= k < |s| ensures s[k] != '/' {
      if k >= |prefix| { assert s[k] == e[k - |prefix|]; }
    }
    SlashFreeBaseName(s);
    if e == "" {
      assert s == prefix;
      assert LastDot(s).None?;
    } else {
      LastDotOfPrefixed(prefix, e);
      assert s[0] == prefix[0];
      assert s[|prefix|..] == e;
    }
  }

  // ---------------------------------------------------------------------------
  // The type filters

  const ImageTypes: seq<string> := ["jpeg", "jpg", "png", "gif", "webp"]
  const AttachmentTypes: seq<string> := ["pdf", "doc", "docx", "txt"]

  /** imageFilter: `/jpeg|jpg|png|gif|webp/` must match both the lower-cased extension
      and the mimetype as sent, which is not lower-cased. */
  predicate ImageAccepted(originalname: string, mimetype: string) {
    ContainsAny(ToLower(ExtName(originalname)), ImageTypes) && ContainsAny(mimetype, ImageTypes)
  }

  /** attachmentFilter: `/pdf|doc|docx|txt/` must match the lower-cased extension; the
      mimetype is not looked at. */
  predicate AttachmentAccepted(originalname: string, mimetype: string) {
    ContainsAny(ToLower(ExtName(originalname)), AttachmentTypes)
  }

  /** A string none of whose characters starts `sub` does not contain it. */
  lemma {:induction false} NoStartNoOccurrence(s: string, sub: string)
    requires sub != []
    requires forall i :: 0 <= i < |s| ==> s[i] != sub[0]
    ensures !Contains(s, sub)
  {
    if s != [] {
      if |sub| <= |s| {
        assert s[..|sub|][0] == s[0];
      }
      assert !StartsWith(s, sub);
      NoStartNoOccurrence(s[1..], sub);
    }
  }

  /** No character of `s` starts any of the alternatives, so none of them occurs. */
  lemma NoAlternativeStarts(s: string, alternatives: seq<string>)
    requires forall k :: 0 <= k < |alternatives| ==> alternatives[k] != []
    requires forall k, i :: 0 <= k < |alternatives| && 0 <= i < |s| ==> s[i] != alternatives[k][0]
    ensures !ContainsAny(s, alternatives)
  {
    forall k | 0 <= k < |alternatives| ensures !Contains(s, alternatives[k]) {
      NoStartNoOccurrence(s, alternatives[k]);
    }
  }

  /** A name without slashes and dots has no extension, so neither filter accepts it
      (a file called `jpg` is not an image). */
  lemma NameWithoutExtensionRefused(name: string, mimetype: string)
    requires name != []
    requires forall k :: 0 <= k < |name| ==> name[k] != '/' && name[k] != '.'
    ensures ExtName(name) == ""
    ensures !ImageAccepted(name, mimetype) && !AttachmentAccepted(name, mimetype)
  {
    ExtNameOfPrefixed(name, "");
    assert name + "" == name;
    NoExtensionRefused(name, mimetype);
  }

  /** A file name whose extension is empty passes neither filter. */
  lemma NoExtensionRefused(name: string, mimetype: string)
    requires ExtName(name) == ""
    ensures !ImageAccepted(name, mimetype) && !AttachmentAccepted(name, mimetype)
  {
    EmptyExtensionMatchesNothing(ExtName(name));
  }

  /** Lower-casing an empty extension leaves it empty, and it contains no listed type. */
  lemma EmptyExtensionMatchesNothing(ext: string)
    requires ext == ""
    ensures !ContainsAny(ToLower(ext), ImageTypes) && !ContainsAny(ToLower(ext), AttachmentTypes)
  {
    assert ToLower(ext) == "";
    EmptyContainsNone(ImageTypes);
    EmptyContainsNone(AttachmentTypes);
  }

  /** The empty string contains no non-empty alternative. */
  lemma EmptyContainsNone(alternatives: seq<string>)
    requires forall k :: 0 <= k < |alternatives| ==> alternatives[k] != []
    ensures !ContainsAny("", alternatives)
  {
    forall k | 0 <= k < |alternatives| ensures !Contains("", alternatives[k]) {
      assert !StartsWith("", alternatives[k]);
    }
  }

  /** The mimetype is tested as sent: one without lower-case letters, such as
      `IMAGE/JPEG`, is refused whatever the file's extension. */
  lemma UpperCaseMimetypeRefused(originalname: string, mimetype: string)
    requires forall i :: 0 <= i < |mimetype| ==> !('a' <= mimetype[i] <= 'z')
    ensures !ImageAccepted(originalname, mimetype)
  {
    NoAlternativeStarts(mimetype, ImageTypes);
  }

  lemma LowerCharKeepsSeparators(c: char)
    ensures LowerChar(c) == '.' <==> c == '.'
    ensures LowerChar(c) == '/' <==> c == '/'
    ensures LowerChar(LowerChar(c)) == LowerChar(c)
  {
  }

  lemma ToLowerAppend(a: string, b: string)
    ensures ToLower(a + b) == ToLower(a) + ToLower(b)
  {
    assert forall k :: 0 <= k < |a + b| ==> ToLower(a + b)[k] == (ToLower(a) + ToLower(b))[k] by {
      forall k | 0 <= k < |a + b| ensures ToLower(a + b)[k] == (ToLower(a) + ToLower(b))[k] {
        if k < |a| { assert (a + b)[k] == a[k]; } else { assert (a + b)[k] == b[k - |a|]; }
      }
    }
  }

  lemma ToLowerIdempotent(s: string)
    ensures ToLower(ToLower(s)) == ToLower(s)
  {
    forall k | 0 <= k < |s| ensures ToLower(ToLower(s))[k] == ToLower(s)[k] {
      LowerCharKeepsSeparators(s[k]);
    }
  }

  lemma ToLowerKeepsShape(e: string)
    requires ExtensionShape(e)
    ensures ExtensionShape(ToLower(e))
  {
    if e != "" {
      forall k | 0 <= k < |e| ensures ToLower(e)[k] != '/' && (k > 0 ==> ToLower(e)[k] != '.') {
        LowerCharKeepsSeparators(e[k]);
      }
      LowerCharKeepsSeparators(e[0]);
    }
  }

  /** The extension is lower-cased before the test: `photo.JPG` fares as `photo.jpg`. */
  lemma ExtensionCaseIgnored(prefix: string, e: string, mimetype: string)
    requires prefix != []
    requires forall k :: 0 <= k < |prefix| ==> prefix[k] != '/' && prefix[k] != '.'
    requires ExtensionShape(e)
    ensures ImageAccepted(prefix + e, mimetype) <==> ImageAccepted(prefix + ToLower(e), mimetype)
    ensures AttachmentAccepted(prefix + e, mimetype) <==> AttachmentAccepted(prefix + ToLower(e), mimetype)
  {
    ExtNameOfPrefixed(prefix, e);
    ToLowerKeepsShape(e);
    ExtNameOfPrefixed(prefix, ToLower(e));
    ToLowerIdempotent(e);
  }

  /** An occurrence survives appending. */
  lemma ContainsInLonger(s: string, t: string, sub: string)
    requires Contains(s, sub)
    ensures Contains(s + t, sub)
  {
    var i := ContainsWitness(s, sub);
    assert (s + t)[i..i + |sub|] == s[i..i + |sub|];
    ContainsAt(s + t, sub, i);
  }

  /** The patterns are unanchored: once an extension is accepted, any characters
      appended to it keep it accepted (`photo.jpgx` passes as `photo.jpg` does). */
  lemma ExtensionSuffixIgnored(prefix: string, e: string, tail: string, mimetype: string)
    requires prefix != []
    requires forall k :: 0 <= k < |prefix| ==> prefix[k] != '/' && prefix[k] != '.'
    requires e != [] && ExtensionShape(e)
    requires forall k :: 0 <= k < |tail| ==> tail[k] != '/' && tail[k] != '.'
    ensures ImageAccepted(prefix + e, mimetype) ==> ImageAccepted(prefix + (e + tail), mimetype)
    ensures AttachmentAccepted(prefix + e, mimetype) ==> AttachmentAccepted(prefix + (e + tail), mimetype)
  {
    var et := e + tail;
    forall k | 0 <= k < |et| ensures et[k] != '/' && (k > 0 ==> et[k] != '.') {
      if k >= |e| { assert et[k] == tail[k - |e|]; } else { assert et[k] == e[k]; }
    }
    ExtNameOfPrefixed(prefix, e);
    ExtNameOfPrefixed(prefix, et);
    ToLowerAppend(e, tail);
    forall k | 0 <= k < |ImageTypes| && Contains(ToLower(e), ImageTypes[k])
      ensures Contains(ToLower(et), ImageTypes[k])
    {
      ContainsInLonger(ToLower(e), ToLower(tail), ImageTypes[k]);
    }
    forall k | 0 <= k < |AttachmentTypes| && Contains(ToLower(e), AttachmentTypes[k])
      ensures Contains(ToLower(et), AttachmentTypes[k])
    {
      ContainsInLonger(ToLower(e), ToLower(tail), AttachmentTypes[k]);
    }
  }

  // ---------------------------------------------------------------------------
  // The stored file name

  /** `fieldname + '-' + Date.now() + '-' + Math.round(Math.random() * 1E9) + extname`. */
  function StoredName(fieldname: string, now: nat, random: nat, originalname: string): string {
    fieldname + "-" + NaturalString(now) + "-" + NaturalString(random) + ExtName(originalname)
  }

  /** A string with neither slashes nor dots. */
  predicate Plain(s: string) {
    forall k :: 0 <= k < |s| ==> s[k] != '/' && s[k] != '.'
  }

  lemma PlainAppend(a: string, b: string)
    requires Plain(a) && Plain(b)
    ensures Plain(a + b)
  {
    forall k | 0 <= k < |a + b| ensures (a + b)[k] != '/' && (a + b)[k] != '.' {
      if k < |a| { assert (a + b)[k] == a[k]; } else { assert (a + b)[k] == b[k - |a|]; }
    }
  }

  /** The stored file keeps the extension of the client's file name. */
  lemma StoredNameKeepsExtension(fieldname: string, now: nat, random: nat, originalname: string)
    requires forall k :: 0 <= k < |fieldname| ==> fieldname[k] != '/' && fieldname[k] != '.'
    ensures ExtName(StoredName(fieldname, now, random, originalname)) == ExtName(originalname)
  {
    var a, b := NaturalString(now), NaturalString(random);
    assert Plain(a) && Plain(b) && Plain("-");
    PlainAppend(fieldname, "-");
    PlainAppend(fieldname + "-", a);
    PlainAppend(fieldname + "-" + a, "-");
    PlainAppend(fieldname + "-" + a + "-", b);
    var prefix := fieldname + "-" + a + "-" + b;
    ExtNameShape(originalname);
    ExtNameOfPrefixed(prefix, ExtName(originalname));
  }

  // ---------------------------------------------------------------------------
  // Limits

  const MB: nat := 1024 * 1024

  datatype FileFilter = Images | Attachments | NoFilter

  /** A multer configuration: the size limit per file, the accepted field names with
      their maximum counts, and the type filter. */
  datatype UploadConfig = UploadConfig(fileSize: nat, fields: seq<(string, nat)>, filter: FileFilter)

  datatype UploadedFile = UploadedFile(fieldname: string, originalname: string, mimetype: string, size: nat)

  /** `.array('images', 5)` with a 5 MB limit and the image filter. */
  const UploadImages: UploadConfig := UploadConfig(5 * MB, [("images", 5)], Images)
  /** `.array('attachments', 3)` with a 10 MB limit and the attachment filter. */
  const UploadAttachments: UploadConfig := UploadConfig(10 * MB, [("attachments", 3)], Attachments)
  /** `.fields([images: 5, attachments: 3])` with a 10 MB limit and no filter; the
      recipe routes use this one. */
  const UploadFiles: UploadConfig := UploadConfig(10 * MB, [("images", 5), ("attachments", 3)], NoFilter)

  predicate FilterAccepts(filter: FileFilter, f: UploadedFile) {
    match filter
    case Images => ImageAccepted(f.originalname, f.mimetype)
    case Attachments => AttachmentAccepted(f.originalname, f.mimetype)
    case NoFilter => true
  }

  predicate FieldListed(cfg: UploadConfig, name: string) {
    exists j :: 0 <= j < |cfg.fields| && cfg.fields[j].0 == name
  }

  /** A request multer lets through: every file comes in a listed field, within the size
      limit and past the filter, and no field holds more files than its maximum. */
  predicate Admitted(cfg: UploadConfig, files: seq<UploadedFile>) {
    && (forall k :: 0 <= k < |files| ==>
          FieldListed(cfg, files[k].fieldname) && files[k].size <= cfg.fileSize && FilterAccepts(cfg.filter, files[k]))
    && (forall j :: 0 <= j < |cfg.fields| ==>
          Count(files, (f: UploadedFile) => f.fieldname == cfg.fields[j].0) <= cfg.fields[j].1)
  }

  /** A sequence all of whose elements satisfy `p` is counted in full. */
  lemma {:induction false} CountAll<T>(s: seq<T>, p: T -> bool)
    requires forall k :: 0 <= k < |s| ==> p(s[k])
    ensures Count(s, p) == |s|
  {
    if s != [] {
      CountAll(s[1..], p);
    }
  }

  /** uploadImages admits at most five files, each an image of at most 5 MB. */
  lemma UploadImagesBounds(files: seq<UploadedFile>)
    requires Admitted(UploadImages, files)
    ensures |files| <= 5
    ensures forall k :: 0 <= k < |files| ==>
      files[k].size <= 5 * 1024 * 1024 && ImageAccepted(files[k].originalname, files[k].mimetype)
  {
    assert |UploadImages.fields| == 1 && UploadImages.fields[0] == ("images", 5);
    forall k | 0 <= k < |files| ensures files[k].fieldname == UploadImages.fields[0].0 {
      assert FieldListed(UploadImages, files[k].fieldname);
    }
    CountAll(files, (f: UploadedFile) => f.fieldname == UploadImages.fields[0].0);
  }

  /** uploadAttachments admits at most three files, each an attachment of at most 10 MB. */
  lemma UploadAttachmentsBounds(files: seq<UploadedFile>)
    requires Admitted(UploadAttachments, files)
    ensures |files| <= 3
    ensures forall k :: 0 <= k < |files| ==>
      files[k].size <= 10 * 1024 * 1024 && AttachmentAccepted(files[k].originalname, files[k].mimetype)
  {
    assert |UploadAttachments.fields| == 1 && UploadAttachments.fields[0] == ("attachments", 3);
    forall k | 0 <= k < |files| ensures files[k].fieldname == UploadAttachments.fields[0].0 {
      assert FieldListed(UploadAttachments, files[k].fieldname);
    }
    CountAll(files, (f: UploadedFile) => f.fieldname == UploadAttachments.fields[0].0);
  }

  /** uploadFiles bounds the counts (five images, three attachments, each at most
      10 MB) but checks no type: any single file of at most 10 MB in the images field
      is admitted, whether or not the image filter would accept it. */
  lemma UploadFilesChecksNoType(files: seq<UploadedFile>, f: UploadedFile)
    requires f.fieldname == "images" && f.size <= 10 * 1024 * 1024
    ensures Admitted(UploadFiles, files) ==>
      && Count(files, (g: UploadedFile) => g.fieldname == "images") <= 5
      && Count(files, (g: UploadedFile) => g.fieldname == "attachments") <= 3
      && (forall k :: 0 <= k < |files| ==> files[k].size <= 10 * 1024 * 1024)
    ensures Admitted(UploadFiles, [f])
  {
    assert UploadFiles.fields[0].0 == "images";
    assert UploadFiles.fields[1].0 == "attachments";
    assert FieldListed(UploadFiles, f.fieldname);
    assert [f][1..] == [];
    assert Count([f], (g: UploadedFile) => g.fieldname == UploadFiles.fields[0].0) == 1;
    assert Count([f], (g: UploadedFile) => g.fieldname == UploadFiles.fields[1].0) == 0;
  }
}
