/** `POST /upload`: the extension allow-list, the choice of the `images` or
    `audio` folder, and the URL handed back. The filename sanitiser
    (werkzeug's `secure_filename`) is a parameter the model knows nothing
    about; the folder is chosen from the extension of the sanitised name. */
module Upload {
  import opened Wrappers
  import opened Text

  const IMAGE_EXTENSIONS: set<string> := {"png", "jpg", "jpeg", "gif", "webp"}
  const AUDIO_EXTENSIONS: set<string> := {"mp3", "wav", "ogg", "m4a"}
  const ALLOWED_EXTENSIONS: set<string> := IMAGE_EXTENSIONS + AUDIO_EXTENSIONS

  /** The error texts of the three rejections. */
  const NO_FILE_SENT := "Nenhum arquivo enviado"
  const NO_FILE_SELECTED := "Nenhum arquivo selecionado"
  const TYPE_NOT_ALLOWED := "Tipo de arquivo não permitido"

  /** `name.rsplit('.', 1)[1]`: the text after the last dot, or `None` when
      there is no dot (where the indexing raises). */
  function Extension(name: string): (r: Option<string>)
    ensures r.None? <==> '.' !in name
    ensures r.Some? ==> exists i :: 0 <= i < |name| && name[i] == '.' && '.' !in name[i + 1..] && r.value == name[i + 1..]
  {
    match LastIndexOf(name, '.')
    case None => None
    case Some(i) => Some(name[i + 1..])
  }

  /** `allowed_file`: the name has a dot and its last extension, lower-cased,
      is on the allow-list. */
  predicate AllowedFile(name: string)
  {
    match Extension(name)
    case None => false
    case Some(ext) => Lower(ext) in ALLOWED_EXTENSIONS
  }

  /** A dot with no dot after it is the one the extension is split at. */
  lemma ExtensionAtLastDot(name: string, i: nat)
    requires i < |name| && name[i] == '.' && '.' !in name[i + 1..]
    ensures Extension(name) == Some(name[i + 1..])
  {
    var j := LastIndexOf(name, '.').value;
  }

  /** The allow-list check in positional terms, both directions: some dot
      has no dot after it and the text after it is an allowed extension in
      any letter case. */
  lemma AllowedFileIff(name: string)
    ensures AllowedFile(name) <==>
      exists i :: 0 <= i < |name| && name[i] == '.' && '.' !in name[i + 1..] && Lower(name[i + 1..]) in ALLOWED_EXTENSIONS
  {
    if exists i :: 0 <= i < |name| && name[i] == '.' && '.' !in name[i + 1..] && Lower(name[i + 1..]) in ALLOWED_EXTENSIONS {
      var i :| 0 <= i < |name| && name[i] == '.' && '.' !in name[i + 1..] && Lower(name[i + 1..]) in ALLOWED_EXTENSIONS;
      ExtensionAtLastDot(name, i);
    }
  }

  /** An upper-case image extension passes the allow-list. */
  lemma UpperCaseImageAllowed()
    ensures AllowedFile("photo.PNG")
  {
    var name := "photo.PNG";
    assert name[6..] == "PNG";
    ExtensionAtLastDot(name, 5);
    assert Lower("PNG") == "png";
  }

  /** A foreign extension does not pass the allow-list. */
  lemma ForeignExtensionRejected()
    ensures !AllowedFile("payload.exe")
  {
    var name := "payload.exe";
    assert name[8..] == "exe";
    ExtensionAtLastDot(name, 7);
    assert Lower("exe") == "exe";
    assert forall e :: e in ALLOWED_EXTENSIONS ==> |e| > 0 && e[0] != 'e';
  }

  /** Neither does a bare word or a name ending in a dot. */
  lemma NamesWithoutExtensionRejected()
    ensures !AllowedFile("png")
    ensures !AllowedFile("x.")
  {
    assert '.' !in "png";
    assert Extension("png") == None;
    assert LastIndexOf("x.", '.') == Some(1);
    assert "x."[2..] == "";
    assert Lower("") == "";
  }

  /** The multipart part named `file`, if the request has one. */
  datatype UploadRequest = NoFilePart | FilePart(filename: string, content: seq<bv8>)

  /** The reply of `POST /upload`. `NoExtensionAfterSanitizing` is the
      uncaught IndexError raised when the sanitised name has lost its dot. */
  datatype UploadReply =
    | Rejected(error: string)
    | Saved(url: string, filename: string, kind: string)
    | NoExtensionAfterSanitizing
  {
    function Status(): int
    {
      match this
      case Rejected(_) => 400
      case Saved(_, _, _) => 200
      case NoExtensionAfterSanitizing => 500
    }
  }

  /** The folder for a sanitised name, in either letter case: `images` for
      an image extension, `audio` for an audio extension, and `audio` as
      well for an extension the allow-list does not know (the sanitiser may
      change the extension the allow-list saw). */
  function Folder(ext: string): (dir: string)
    ensures Lower(ext) in IMAGE_EXTENSIONS ==> dir == "images"
    ensures Lower(ext) in AUDIO_EXTENSIONS ==> dir == "audio"
    ensures Lower(ext) !in ALLOWED_EXTENSIONS ==> dir == "audio"
  {
    ImageAudioDisjoint(Lower(ext));
    if Lower(ext) in IMAGE_EXTENSIONS then "images" else "audio"
  }

  /** The relative URL of a stored file. */
  function UploadUrl(dir: string, name: string): string
  {
    "/uploads/" + dir + "/" + name
  }

  /** `upload_file`: the three rejections in order, then the folder chosen
      from the sanitised name and the URL built from it. */
  function HandleUpload(req: UploadRequest, sanitize: string -> string): (r: UploadReply)
    ensures r.Saved? ==> r.kind == "images" || r.kind == "audio"
    ensures r.Saved? ==> req.FilePart? && r.filename == sanitize(req.filename)
  {
    match req
    case NoFilePart => Rejected(NO_FILE_SENT)
    case FilePart(name, _) =>
      if name == "" then Rejected(NO_FILE_SELECTED)
      else if !AllowedFile(name) then Rejected(TYPE_NOT_ALLOWED)
      else
        var safe := sanitize(name);
        match Extension(safe)
        case None => NoExtensionAfterSanitizing
        case Some(ext) =>
          var dir := Folder(ext);
          Saved(UploadUrl(dir, safe), safe, dir)
  }

  /** A request is rejected with 400 exactly when the file part is missing,
      its name is empty, or the name fails the allow-list; each rejection
      carries its error text. */
  lemma UploadRejections(req: UploadRequest, sanitize: string -> string)
    ensures var r := HandleUpload(req, sanitize);
      r.Rejected? <==> req.NoFilePart? || req.filename == "" || !AllowedFile(req.filename)
    ensures var r := HandleUpload(req, sanitize);
      r.Rejected? ==> (r.Status() == 400 &&
                       r.error == (if req.NoFilePart? then NO_FILE_SENT
                                   else if req.filename == "" then NO_FILE_SELECTED
                                   else TYPE_NOT_ALLOWED))
  {
  }

  /** An accepted file is stored under `images` exactly when the sanitised
      name's extension is an image extension, otherwise under `audio`, and
      the reply names the sanitised file and its URL. */
  lemma UploadRouting(req: UploadRequest, sanitize: string -> string)
    requires req.FilePart? && req.filename != "" && AllowedFile(req.filename)
    ensures var r := HandleUpload(req, sanitize);
      var safe := sanitize(req.filename);
      (r.NoExtensionAfterSanitizing? <==> '.' !in safe)
      && (r.Saved? ==> r.Status() == 200
                       && r.filename == safe
                       && r.url == "/uploads/" + r.kind + "/" + safe
                       && (r.kind == "images" <==> Lower(Extension(safe).value) in IMAGE_EXTENSIONS)
                       && (r.kind == "audio" <==> Lower(Extension(safe).value) !in IMAGE_EXTENSIONS))
  {
  }

  /** No extension is both an image and an audio extension. */
  lemma ImageAudioDisjoint(e: string)
    ensures e in IMAGE_EXTENSIONS ==> e !in AUDIO_EXTENSIONS
  {
  }

  /** When sanitising keeps the extension, an accepted file is saved, and its
      folder is `images` for an image extension and `audio` for an audio
      one. */
  lemma UploadRoutingPreservedExtension(req: UploadRequest, sanitize: string -> string)
    ensures req.FilePart? && req.filename != "" && AllowedFile(req.filename)
            && Extension(sanitize(req.filename)) == Extension(req.filename) ==>
      var r := HandleUpload(req, sanitize);
      var ext := Lower(Extension(req.filename).value);
      r.Saved? && (r.kind == "images" <==> ext in IMAGE_EXTENSIONS)
               && (r.kind == "audio" <==> ext in AUDIO_EXTENSIONS)
  {
    if req.FilePart? && req.filename != "" && AllowedFile(req.filename)
       && Extension(sanitize(req.filename)) == Extension(req.filename) {
      var safe := sanitize(req.filename);
      var raw := Extension(req.filename).value;
      var ext := Lower(raw);
      var dir := Folder(raw);
      assert HandleUpload(req, sanitize) == Saved(UploadUrl(dir, safe), safe, dir);
      assert ext in IMAGE_EXTENSIONS || ext in AUDIO_EXTENSIONS;
      ImageAudioDisjoint(ext);
      assert "images" != "audio";
    }
  }

  /** A name that is only a dot and an extension passes the allow-list, but
      when the sanitiser strips the leading dot (as `secure_filename` strips
      leading dots) the extension split fails and nothing is stored. */
  lemma DotOnlyNameFailsAfterSanitizing(content: seq<bv8>, sanitize: string -> string)
    requires sanitize(".png") == "png"
    ensures AllowedFile(".png")
    ensures HandleUpload(FilePart(".png", content), sanitize) == NoExtensionAfterSanitizing
  {
    assert ".png"[1..] == "png";
    ExtensionAtLastDot(".png", 0);
    assert Lower("png") == "png";
    assert '.' !in "png";
  }

  /** Reads a file URL back into its folder and file name. */
  function ParseUploadUrl(url: string): Option<(string, string)>
  {
    var images := "/uploads/images/";
    var audio := "/uploads/audio/";
    if IsPrefix(images, url) then Some(("images", url[|images|..]))
    else if IsPrefix(audio, url) then Some(("audio", url[|audio|..]))
    else None
  }

  /** The URL determines the folder and the stored name. */
  lemma UploadUrlRoundTrip(dir: string, name: string)
    requires dir == "images" || dir == "audio"
    ensures ParseUploadUrl(UploadUrl(dir, name)) == Some((dir, name))
  {
    var url := UploadUrl(dir, name);
    var prefix := "/uploads/" + dir + "/";
    assert url == prefix + name;
    assert url[..|prefix|] == prefix;
    assert url[|prefix|..] == name;
    if dir == "audio" {
      assert url[9] == 'a';
      assert !IsPrefix("/uploads/images/", url);
    }
  }

  /** The files below the uploads folder, keyed by `<folder>/<name>`. */
  class MediaStore {
    var files: map<string, seq<bv8>>

    constructor ()
      ensures files == map[]
    {
      files := map[];
    }

    /** `POST /upload`: a saved file replaces any earlier file of the same
        sanitised name in its folder; every other outcome writes nothing. */
    method Upload(req: UploadRequest, sanitize: string -> string) returns (reply: UploadReply)
      modifies this
      ensures reply == HandleUpload(req, sanitize)
      ensures reply.Saved? ==> files == old(files)[reply.kind + "/" + reply.filename := req.content]
      ensures !reply.Saved? ==> files == old(files)
    {
      reply := HandleUpload(req, sanitize);
      if reply.Saved? {
        files := files[reply.kind + "/" + reply.filename := req.content];
      }
    }
  }
}
