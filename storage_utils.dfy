/** Helpers of the file manager's client: the path shown for a stored key and
    the icon chosen for an entry. */
module StorageUtils {
  import opened Text
  import opened StorageModel

  /** `fullPath.split("/").slice(2).join("/")`: the key without its first two
      segments (the user id and `uploads`). */
  function RelativePath(fullPath: string): (r: string)
    ensures |Split(fullPath, '/')| < 3 ==> r == ""
  {
    var parts := Split(fullPath, '/');
    if |parts| <= 2 then "" else Join(parts[2..], "/")
  }

  /** The icon components the classifier can return. The `doc`/`docx` branch
      returns `FileText` under another import name, so it has no case of its own. */
  datatype Icon =
    | FilledFolder | File | FileText | Table2 | Presentation | Image
    | FileVideo2 | AudioLines | FileJson2 | FileCode2 | Archive

  /** `fileName.split(".").pop().toLowerCase()`. */
  function Extension(fileName: string): (ext: string)
    ensures '.' !in ext && Lower(ext) == ext
  {
    var e := Lower(LastSegment(fileName, '.'));
    assert forall i :: 0 <= i < |e| ==> e[i] != '.';
    e
  }

  /** The icon chosen for a file name and entry type. */
  function FileIcon(fileName: string, entryType: string): Icon {
    var ext := Extension(fileName);
    if entryType == "folder" then FilledFolder
    else if ext == "pdf" then File
    else if ext in ["doc", "docx"] then FileText
    else if ext in ["xls", "xlsx"] then Table2
    else if ext in ["ppt", "pptx"] then Presentation
    else if ext == "txt" then FileText
    else if ext in ["jpg", "jpeg", "png", "gif", "svg", "webp"] then Image
    else if ext in ["mp4", "mov", "avi", "webm"] then FileVideo2
    else if ext in ["mp3", "wav", "ogg", "m4a"] then AudioLines
    else if ext in ["json", "xml", "yaml", "yml"] then FileJson2
    else if ext in ["js", "ts", "jsx", "tsx", "html", "css", "py", "java"] then FileCode2
    else if ext in ["zip", "rar", "7z", "tar", "gz"] then Archive
    else FileText
  }

  /** Every extension the classifier names. */
  const KnownExtensions: set<string> :=
    {"pdf", "doc", "docx", "xls", "xlsx", "ppt", "pptx", "txt", "jpg", "jpeg", "png", "gif", "svg",
     "webp", "mp4", "mov", "avi", "webm", "mp3", "wav", "ogg", "m4a", "json", "xml", "yaml", "yml",
     "js", "ts", "jsx", "tsx", "html", "css", "py", "java", "zip", "rar", "7z", "tar", "gz"}

  // ---------------------------------------------------------------------------
  // Properties

  /** The relative path is what follows the second `/`. */
  lemma RelativePathAfterTwo(a: string, b: string, rest: string)
    requires '/' !in a && '/' !in b
    ensures RelativePath(a + "/" + b + "/" + rest) == rest
  {
    var full := a + "/" + b + "/" + rest;
    SplitTwoHeads(a, b, rest);
    assert Split(full, '/')[2..] == Split(rest, '/');
    JoinSplit(rest, '/');
  }

  /** Two separator-free heads come off the split one by one. */
  lemma SplitTwoHeads(a: string, b: string, rest: string)
    requires '/' !in a && '/' !in b
    ensures Split(a + "/" + b + "/" + rest, '/') == [a, b] + Split(rest, '/')
  {
    var inner := b + "/" + rest;
    assert Split(a + "/" + b + "/" + rest, '/') == [a] + Split(inner, '/') by {
      assert a + "/" + b + "/" + rest == a + ['/'] + inner;
      SplitCons(a, '/', inner);
    }
    assert Split(inner, '/') == [b] + Split(rest, '/') by {
      assert inner == b + ['/'] + rest;
      SplitCons(b, '/', rest);
    }
    assert [a] + ([b] + Split(rest, '/')) == [a, b] + Split(rest, '/') by {
      AppendAssoc([a], [b], Split(rest, '/'));
      assert [a] + [b] == [a, b];
    }
  }

  /** The relative path inverts the server's key layout: for a user id without
      `/`, the path of an upload key is the folder and name below the user root. */
  lemma RelativePathOfUploadKey(userId: string, folder: string, name: string)
    requires '/' !in userId
    ensures RelativePath(UploadKey(userId, folder, name)) == if folder != "" then folder + "/" + name else name
  {
    var rest := if folder != "" then folder + "/" + name else name;
    assert UploadKey(userId, folder, name) == userId + "/" + "uploads" + "/" + rest;
    RelativePathAfterTwo(userId, "uploads", rest);
  }

  /** A folder always gets the folder icon, whatever its name. */
  lemma FolderIconFirst(fileName: string)
    ensures FileIcon(fileName, "folder") == FilledFolder
  {
  }

  /** Lower-casing keeps the position of the last `.`. */
  lemma LastDotOfLower(fileName: string)
    ensures LastIndexOf(Lower(fileName), '.') == LastIndexOf(fileName, '.')
  {
    var low := Lower(fileName);
    var j1 := LastIndexOf(fileName, '.');
    var j2 := LastIndexOf(low, '.');
    forall i | 0 <= i < |fileName|
      ensures low[i] == '.' <==> fileName[i] == '.'
    {
      assert low[i] == LowerChar(fileName[i]);
    }
    forall i | j1 < i < |fileName|
      ensures low[i] != '.'
    {
      assert fileName[i] == fileName[j1 + 1..][i - j1 - 1];
    }
    forall i | j2 < i < |fileName|
      ensures fileName[i] != '.'
    {
      assert low[i] == low[j2 + 1..][i - j2 - 1];
    }
  }

  /** The extension of the lower-cased name is the extension of the name. */
  lemma ExtensionIgnoresCase(fileName: string)
    ensures Extension(Lower(fileName)) == Extension(fileName)
  {
    var low := Lower(fileName);
    LastDotOfLower(fileName);
    LastSegmentAt(fileName, '.');
    LastSegmentAt(low, '.');
    var seg := LastSegment(fileName, '.');
    assert LastSegment(low, '.') == Lower(seg);
    LowerIdempotent(seg);
  }

  /** Only the extension decides, and case does not matter: the icon of the
      lower-cased name is the icon of the name. */
  lemma IconIgnoresCase(fileName: string, entryType: string)
    ensures FileIcon(Lower(fileName), entryType) == FileIcon(fileName, entryType)
  {
    ExtensionIgnoresCase(fileName);
  }

  /** A file whose extension the classifier does not name gets the default
      text icon, and so do `txt`, `doc` and `docx`. */
  lemma UnknownExtensionIsText(fileName: string, entryType: string)
    requires entryType != "folder"
    ensures Extension(fileName) !in KnownExtensions ==> FileIcon(fileName, entryType) == FileText
    ensures Extension(fileName) in {"txt", "doc", "docx"} ==> FileIcon(fileName, entryType) == FileText
  {
  }
}
