/**
  * `FileService`: the extension of an uploaded file's name and the path the file is
  * stored under, `<root>/user/<senderId>/<uuid>.<extension>`. Directory creation, the
  * write itself and the random UUID are the caller's: the model takes their outcomes
  * and the UUID as arguments.
  */
module FileService {
  import opened Wrappers
  import opened JavaStrings

  /** `getFileExtension(fileName)`: the lower-cased text after the last '.', or "" when
      the name is missing or empty, has no '.', or ends with '.'. */
  function GetFileExtension(fileName: Option<string>): (r: string)
    ensures '.' !in r && Lower(r) == r
    ensures r != "" ==> fileName.Some? && |r| < |fileName.value| && r == Lower(fileName.value)[|fileName.value| - |r|..]
  {
    if fileName.None? || fileName.value == "" then ""
    else
      var name := fileName.value;
      match LastIndexOf(name, '.')
      case None => ""
      case Some(i) =>
        if i == |name| - 1 then ""
        else
          LowerSuffix(name, i + 1);
          LowerKeepsDots(name[i + 1..]);
          LowerIdempotent(name[i + 1..]);
          Lower(name[i + 1..])
  }

  /** Lower-casing neither adds nor removes a '.'. */
  lemma LowerKeepsDots(s: string)
    ensures '.' in Lower(s) <==> '.' in s
  {
    if '.' in Lower(s) {
      var i :| 0 <= i < |s| && Lower(s)[i] == '.';
      assert s[i] == '.';
    }
    if '.' in s {
      var i :| 0 <= i < |s| && s[i] == '.';
      assert Lower(s)[i] == '.';
    }
  }

  /** The extension is empty exactly when the name is missing or empty, has no '.', or
      ends with '.'; otherwise it is non-empty. */
  lemma ExtensionEmptyIff(fileName: Option<string>)
    ensures GetFileExtension(fileName) == "" <==>
      fileName.None? || fileName.value == "" || '.' !in fileName.value || fileName.value[|fileName.value| - 1] == '.'
  {
    if fileName.Some? && fileName.value != "" {
      var name := fileName.value;
      if '.' in name && name[|name| - 1] == '.' {
        assert LastIndexOf(name, '.') == Some(|name| - 1);
      }
    }
  }

  /** Round trip: a name with an extension after its last '.' gives back that extension,
      lower-cased, whatever comes before the '.'. */
  lemma ExtensionOfName(base: string, ext: string)
    requires ext != "" && '.' !in ext
    ensures GetFileExtension(Some(base + "." + ext)) == Lower(ext)
  {
    var name := base + "." + ext;
    var i := |base|;
    assert name[i] == '.';
    assert name[i + 1..] == ext;
    LastIndexOfAt(name, '.', i);
  }

  /** `saveFile`'s sub-path under the upload root: `user/<senderId>`. */
  function UserSubPath(senderId: string): string
  {
    "user/" + senderId
  }

  /** The folder a file of `senderId` is stored in: `<root>/user/<senderId>`. */
  function UploadFolder(root: string, senderId: string): string
  {
    root + "/" + UserSubPath(senderId)
  }

  /** The stored file's path: `<root>/user/<senderId>/<uuid>.<extension>`. */
  function StoredPath(root: string, senderId: string, uuid: string, fileName: Option<string>): (path: string)
    ensures StartsWith(path, UploadFolder(root, senderId) + "/")
  {
    UploadFolder(root, senderId) + "/" + uuid + "." + GetFileExtension(fileName)
  }

  /** `saveFile` / `uploadFile`: `None` (the method's null) when the folder is missing and
      cannot be created or when the write fails, the stored path otherwise. */
  function SaveFile(root: string, senderId: string, uuid: string, fileName: Option<string>,
                    folderExists: bool, folderCreated: bool, written: bool): (r: Option<string>)
    ensures r.Some? <==> (folderExists || folderCreated) && written
    ensures r.Some? ==> r.value == StoredPath(root, senderId, uuid, fileName)
  {
    if !folderExists && !folderCreated then None
    else if written then Some(StoredPath(root, senderId, uuid, fileName))
    else None
  }

  /** The stored file keeps the uploaded file's extension: the extension of the stored
      path is the upload's, whenever the upload has one (the UUID holds no '.'). */
  lemma StoredPathKeepsExtension(root: string, senderId: string, uuid: string, fileName: Option<string>)
    requires '.' !in uuid && GetFileExtension(fileName) != ""
    ensures GetFileExtension(Some(StoredPath(root, senderId, uuid, fileName))) == GetFileExtension(fileName)
  {
    var ext := GetFileExtension(fileName);
    var base := UploadFolder(root, senderId) + "/" + uuid;
    assert StoredPath(root, senderId, uuid, fileName) == base + "." + ext;
    ExtensionOfName(base, ext);
  }
}
