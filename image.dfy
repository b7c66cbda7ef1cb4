/** The upload helpers of `utils/image.go`: the size and extension checks,
    the generated file name, the public URL and the path on disk of an
    avatar. The multipart form, the file system and the clock are outside
    the model: the uploaded file arrives as a value, each file-system step
    that can fail has a flag saying whether it does, and the formatted time
    is a parameter. */
module Image {
  import opened Wrappers
  import opened Text
  import opened GoPath

  /** `10 << 20` bytes. */
  const MaxFileSize := 10 * 1048576
  const Uploads := "/uploads/"
  const Avatar := "avatar/"
  const VersionAPI := "/api/v1"
  const AllowedExts: set<string> := {".jpg", ".jpeg", ".png"}

  /** The part of a `multipart.FileHeader` the helpers read. */
  datatype UploadedFile = UploadedFile(filename: string, size: int)

  /** Where the upload was written, and the URL returned for it. */
  datatype Saved = Saved(savePath: string, url: string)

  /** The checks of `HandleFileUpload`, in their order: the size, then the
      lower-cased extension. A passing file yields its extension. */
  function CheckUpload(file: UploadedFile): (r: Ret<string>)
    ensures r.IsOk() <==> file.size <= MaxFileSize && ToLower(Ext(file.filename)) in AllowedExts
    ensures r.IsOk() ==> r.value == ToLower(Ext(file.filename))
    ensures file.size > MaxFileSize ==> r == Fail("", FileTooLarge)
    ensures file.size <= MaxFileSize && !r.IsOk() ==> r == Fail("", ExtensionNotAllowed)
  {
    if file.size > MaxFileSize then Fail("", FileTooLarge)
    else
      var fileExt := ToLower(Ext(file.filename));
      if fileExt !in AllowedExts then Fail("", ExtensionNotAllowed)
      else Ok(fileExt)
  }

  /** `generateFileNameUpload`: the name without the extension (matched
      as given), `_`, the time, then the extension. */
  function GenerateFileNameUpload(fileName: string, fileExt: string, timestamp: string): (r: string)
    ensures HasSuffix(r, fileExt)
    ensures HasSuffix(fileName, fileExt) ==> r == fileName[..|fileName| - |fileExt|] + "_" + timestamp + fileExt
    ensures !HasSuffix(fileName, fileExt) ==> r == fileName + "_" + timestamp + fileExt
  {
    var nameWithoutExt := TrimSuffix(fileName, fileExt);
    var r := nameWithoutExt + "_" + timestamp + fileExt;
    assert r[|r| - |fileExt|..] == fileExt;
    r
  }

  /** `generateAvatarURL`: the request's host, then the avatar route. The
      URL starts with the host and, for a plain name, its last element is
      that name. */
  function GenerateAvatarURL(host: string, fileName: string): (r: string)
    ensures HasPrefix(r, host)
    ensures fileName != "" && NoSlash(fileName) ==> Base(r) == fileName
  {
    var r := host + VersionAPI + Uploads + Avatar + fileName;
    assert r[..|host|] == host;
    if fileName != "" && NoSlash(fileName) then
      assert r == (host + VersionAPI + "/uploads/avatar") + "/" + fileName;
      BaseAfterSlash(host + VersionAPI + "/uploads/avatar", fileName);
      r
    else
      r
  }

  /** The avatar directory under `uploadDir`. */
  function AvatarDir(uploadDir: string): string {
    Join(uploadDir, Avatar)
  }

  /** `getAvatarFilePath`: the last element of the argument, in the avatar
      directory. */
  function GetAvatarFilePath(uploadDir: string, fileURL: string): string {
    Join(AvatarDir(uploadDir), Base(fileURL))
  }

  /** `HandleFileUpload`: the checks, then the directory and the write. */
  function HandleFileUpload(file: Option<UploadedFile>, uploadDir: string, host: string, timestamp: string,
                            mkdirFails: bool, saveFails: bool): (r: Ret<string>)
    ensures r.IsOk() <==> file.Some? && CheckUpload(file.value).IsOk() && !mkdirFails && !saveFails
    ensures r.IsOk() ==> r.value == GenerateAvatarURL(host, UploadName(file.value, timestamp))
    ensures !r.IsOk() ==> r.value == ""
  {
    if file.None? then Fail("", FileMissing)
    else
      var checked := CheckUpload(file.value);
      if !checked.IsOk() then Fail("", checked.err.value)
      else if mkdirFails then Fail("", DirectoryNotCreated)
      else if saveFails then Fail("", FileNotSaved)
      else Ok(GenerateAvatarURL(host, UploadName(file.value, timestamp)))
  }

  /** The name an accepted upload is stored under. */
  function UploadName(file: UploadedFile, timestamp: string): string {
    GenerateFileNameUpload(Base(file.filename), ToLower(Ext(file.filename)), timestamp)
  }

  /** The path `HandleFileUpload` writes an accepted upload to. */
  function SavePath(file: UploadedFile, uploadDir: string, timestamp: string): string {
    GetAvatarFilePath(uploadDir, UploadName(file, timestamp))
  }

  /** `HandleFileDeleted`'s guard: an empty name returns nil before any
      file-system call; otherwise the path it inspects and removes. */
  function HandleFileDeleted(fileName: string, uploadDir: string): (r: Option<string>)
    ensures r.None? <==> fileName == ""
    ensures r.Some? ==> r.value == GetAvatarFilePath(uploadDir, fileName)
  {
    if fileName == "" then None else Some(GetAvatarFilePath(uploadDir, fileName))
  }

  /** A file of exactly `10 << 20` bytes passes the size check, one byte
      more does not. */
  lemma SizeLimitInclusive(name: string)
    ensures CheckUpload(UploadedFile(name, MaxFileSize)).err != Some(FileTooLarge)
    ensures CheckUpload(UploadedFile(name, MaxFileSize + 1)) == Fail("", FileTooLarge)
    ensures MaxFileSize == 10485760
  {
  }

  /** The avatar URL names the same file as the name it was made from. */
  lemma AvatarPathOfURL(uploadDir: string, host: string, f: string)
    requires f != "" && NoSlash(f)
    ensures GetAvatarFilePath(uploadDir, GenerateAvatarURL(host, f)) == GetAvatarFilePath(uploadDir, f)
  {
    BaseOfName(f);
  }

  /** Not so for the empty name: its URL ends in `avatar/`, whose base is
      `avatar`, while the base of the empty name is `.`. */
  lemma AvatarPathOfEmptyURL(host: string)
    ensures Base(GenerateAvatarURL(host, "")) == "avatar"
    ensures Base("") == "."
  {
    assert GenerateAvatarURL(host, "") == (host + VersionAPI + "/uploads") + "/" + "avatar" + "/";
    BaseOfDirectory(host + VersionAPI + "/uploads", "avatar");
  }

  /** A path whose last element is a plain name is that name, one slash
      below the avatar directory, which is a clean path other than `/` and
      `.`. */
  lemma AvatarFilePathShape(uploadDir: string, fileURL: string)
    requires PlainName(Base(fileURL))
    ensures GetAvatarFilePath(uploadDir, fileURL) == AvatarDir(uploadDir) + "/" + Base(fileURL)
    ensures Clean(AvatarDir(uploadDir)) == AvatarDir(uploadDir)
    ensures AvatarDir(uploadDir) != "/" && AvatarDir(uploadDir) != "."
  {
    assert Avatar == "avatar" + "/";
    JoinDirectory(uploadDir, "avatar");
    JoinName(AvatarDir(uploadDir), Base(fileURL));
  }

  /** The name an accepted upload is stored under is a plain name (given a
      time without a slash, as the `20060102_150405` layout is). */
  lemma UploadNameIsPlain(file: UploadedFile, timestamp: string)
    requires CheckUpload(file).IsOk() && NoSlash(timestamp)
    ensures PlainName(UploadName(file, timestamp))
  {
    var ext := ToLower(Ext(file.filename));
    assert ext in AllowedExts;
    assert ext != "";
    ExtLowerNoSlash(file.filename);
    StemNoSlash(file.filename);
    NamePlain(TrimSuffix(Base(file.filename), ext), timestamp, ext);
  }

  /** With a non-empty extension the path's last element is a name, and so
      is what is left of it without the extension. */
  lemma StemNoSlash(path: string)
    requires ToLower(Ext(path)) != ""
    ensures NoSlash(TrimSuffix(Base(path), ToLower(Ext(path))))
  {
    var base := Base(path);
    if base == "/" {
      BaseSlashHasNoExt(path);
    }
    TrimSuffixNoSlash(base, ToLower(Ext(path)));
  }

  lemma TrimSuffixNoSlash(s: string, suffix: string)
    requires NoSlash(s)
    ensures NoSlash(TrimSuffix(s, suffix))
  {
    var r := TrimSuffix(s, suffix);
    forall i | 0 <= i < |r| ensures r[i] != '/' {
      assert r[i] == s[i];
    }
  }

  lemma ExtLowerNoSlash(path: string)
    ensures NoSlash(ToLower(Ext(path)))
  {
    var e := Ext(path);
    forall i | 0 <= i < |e| ensures ToLower(e)[i] != '/' {
      assert ToLower(e)[i] == LowerChar(e[i]);
    }
  }

  lemma NamePlain(stem: string, timestamp: string, ext: string)
    requires NoSlash(stem) && NoSlash(timestamp) && NoSlash(ext)
    ensures PlainName(stem + "_" + timestamp + ext)
  {
    NoSlashConcat(stem, "_");
    NoSlashConcat(stem + "_", timestamp);
    NoSlashConcat(stem + "_" + timestamp, ext);
    var n := stem + "_" + timestamp + ext;
    assert n[|stem|] == '_';
    assert n != "." && n != ".." by {
      assert "."[0] == '.' && ".."[0] == '.' && ".."[1] == '.';
    }
  }

  /** A path whose base is `/` is made of slashes only, so its extension
      is empty. */
  lemma BaseSlashHasNoExt(path: string)
    requires path != "" && Base(path) == "/"
    ensures Ext(path) == ""
  {
    assert DropTrailingSlashes(path) == "";
    assert path[|path| - 1] == '/';
  }

  /** The URL `HandleFileUpload` returns leads `HandleFileDeleted` back to
      the path the upload was written to. */
  lemma DeleteFindsUpload(file: UploadedFile, uploadDir: string, host: string, timestamp: string, mkdirFails: bool, saveFails: bool)
    requires NoSlash(timestamp)
    requires HandleFileUpload(Some(file), uploadDir, host, timestamp, mkdirFails, saveFails).IsOk()
    ensures HandleFileDeleted(HandleFileUpload(Some(file), uploadDir, host, timestamp, mkdirFails, saveFails).value, uploadDir)
            == Some(SavePath(file, uploadDir, timestamp))
  {
    UploadNameIsPlain(file, timestamp);
    var n := UploadName(file, timestamp);
    AvatarPathOfURL(uploadDir, host, n);
  }

  lemma ExtOfUpperJpg()
    ensures Ext("A.JPG") == ".JPG"
  {
    ExtOfDot("A");
    assert "A" + "." == "A.";
    ExtAppend("A.", 'J');
    assert "A." + ['J'] == "A.J";
    ExtAppend("A.J", 'P');
    assert "A.J" + ['P'] == "A.JP";
    ExtAppend("A.JP", 'G');
    assert "A.JP" + ['G'] == "A.JPG";
  }

  lemma LowerOfUpperJpg()
    ensures ToLower(".JPG") == ".jpg"
  {
    var l := ToLower(".JPG");
    assert l[0] == '.' && l[1] == 'j' && l[2] == 'p' && l[3] == 'g';
  }

  /** The extension is lower-cased for the check and the new name, but the
      suffix is trimmed with the lower-cased extension, so `A.JPG` keeps
      its own `.JPG`: it is stored as `A.JPG_<time>.jpg`. */
  lemma UpperCaseExtensionKept(size: int, timestamp: string)
    requires size <= MaxFileSize
    ensures CheckUpload(UploadedFile("A.JPG", size)) == Ok(".jpg")
    ensures UploadName(UploadedFile("A.JPG", size), timestamp) == "A.JPG_" + timestamp + ".jpg"
  {
    UpperJpgPasses(size);
    BaseOfUpperJpg();
    UpperJpgKeepsSuffix();
  }

  /** `A.JPG` passes the check with the extension `.jpg`. */
  lemma UpperJpgPasses(size: int)
    requires size <= MaxFileSize
    ensures ToLower(Ext("A.JPG")) == ".jpg"
    ensures CheckUpload(UploadedFile("A.JPG", size)) == Ok(".jpg")
  {
    ExtOfUpperJpg();
    LowerOfUpperJpg();
    assert ".jpg" in AllowedExts;
  }

  /** `A.JPG` holds no slash, so it is its own last element. */
  lemma BaseOfUpperJpg()
    ensures Base("A.JPG") == "A.JPG"
  {
    assert NoSlash("A.JPG");
    BaseOfName("A.JPG");
  }

  /** `A.JPG` does not end in `.jpg`. */
  lemma UpperJpgKeepsSuffix()
    ensures !HasSuffix("A.JPG", ".jpg")
  {
    assert "A.JPG"[1..][2] == 'P';
  }
}
