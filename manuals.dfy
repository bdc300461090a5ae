/** Manual uploads: the file-name check, the extension, and the name and URL
    under which an accepted manual is stored. Reading and writing the file
    itself is not modelled; the random id is a parameter. */
module Manuals {
  import opened Wrappers
  import opened Text

  /** `ALLOWED_EXTENSIONS`. */
  const AllowedExtensions: set<string> := {"pdf", "doc", "docx", "txt", "xls", "xlsx", "ppt", "pptx"}

  /** The text after the last '.', lower-cased: `filename.rsplit('.', 1)[1].lower()`. */
  function Suffix(filename: string): string {
    ToLower(LastSegment(filename, '.'))
  }

  /** `allowed_file`. */
  predicate AllowedFile(filename: string) {
    '.' in filename && Suffix(filename) in AllowedExtensions
  }

  /** `get_file_extension`. */
  function FileExtension(filename: string): string {
    if '.' in filename then Suffix(filename) else ""
  }

  /** A name is allowed exactly when its extension is one of the allowed
      ones: the two functions agree. */
  lemma AllowedIffExtensionAllowed(filename: string)
    ensures AllowedFile(filename) <==> FileExtension(filename) in AllowedExtensions
  {
  }

  /** The extension holds no '.' and no upper-case letter. */
  lemma ExtensionShape(filename: string)
    ensures '.' !in FileExtension(filename)
    ensures ToLower(FileExtension(filename)) == FileExtension(filename)
  {
    DotSurvivesLower(LastSegment(filename, '.'));
    ToLowerIdempotent(LastSegment(filename, '.'));
  }

  /** No position of a suffix that holds no `sep` is a `sep`. */
  lemma SepFreeSuffix(s: string, sep: char, l: string)
    requires sep !in l && |l| <= |s| && l == s[|s| - |l|..]
    ensures forall k :: |s| - |l| <= k < |s| ==> s[k] != sep
  {
    forall k | |s| - |l| <= k < |s| ensures s[k] != sep {
      assert s[k] == l[k - (|s| - |l|)];
    }
  }

  /** The last segment is determined by its three defining facts. */
  lemma LastSegmentUnique(s: string, sep: char, r: string)
    requires sep !in r && |r| <= |s| && r == s[|s| - |r|..]
    requires |r| < |s| ==> s[|s| - |r| - 1] == sep
    ensures r == LastSegment(s, sep)
  {
    var l := LastSegment(s, sep);
    SepFreeSuffix(s, sep, l);
    SepFreeSuffix(s, sep, r);
    assert |r| == |l|;
  }

  /** Lower-casing neither creates nor removes a '.'. */
  lemma DotSurvivesLower(s: string)
    ensures '.' in ToLower(s) <==> '.' in s
  {
    if '.' in s {
      var i :| 0 <= i < |s| && s[i] == '.';
      assert ToLower(s)[i] == '.';
    }
    if '.' in ToLower(s) {
      var i :| 0 <= i < |s| && ToLower(s)[i] == '.';
      assert s[i] == '.';
    }
  }

  /** Lower-casing twice is lower-casing once. */
  lemma ToLowerIdempotent(s: string)
    ensures ToLower(ToLower(s)) == ToLower(s)
  {
  }

  /** Lower-casing commutes with taking the last segment at '.'. */
  lemma LastSegmentToLower(s: string)
    ensures LastSegment(ToLower(s), '.') == ToLower(LastSegment(s, '.'))
  {
    var r := LastSegment(s, '.');
    var lr := ToLower(r);
    var ls := ToLower(s);
    assert lr == ls[|ls| - |lr|..];
    DotSurvivesLower(r);
    LastSegmentUnique(ls, '.', lr);
  }

  /** Both checks ignore case. */
  lemma CaseInsensitive(filename: string)
    ensures AllowedFile(ToLower(filename)) == AllowedFile(filename)
    ensures FileExtension(ToLower(filename)) == FileExtension(filename)
  {
    LastSegmentToLower(filename);
    ToLowerIdempotent(LastSegment(filename, '.'));
    DotSurvivesLower(filename);
  }

  /** The row `upload_manual` stores for an accepted file. */
  datatype ManualRecord = ManualRecord(
    componentName: string,
    fileName: string,
    fileUrl: string,
    fileType: string,
    uploadedBy: string)

  /** The name the file is saved under: component, the short id and the
      extension. */
  function StoredName(componentName: string, uniqueId: string, ext: string): string {
    componentName + "_" + uniqueId + "." + ext
  }

  const UploadPrefix := "/uploads/manuals/"

  /** `upload_manual` without the file I/O: a missing component is 404, a
      missing or empty file name or a disallowed one is 400; otherwise the
      row to store. `uniqueId` stands for the first 8 characters of a random
      UUID. */
  function UploadManual(componentExists: bool, componentName: string, filename: Option<string>, uniqueId: string, uploadedBy: string)
    : (r: Result<ManualRecord>)
    ensures r.Ok? <==> componentExists && filename.Some? && AllowedFile(filename.value)
    ensures !componentExists ==> r == Err(404)
    ensures r.Ok? ==> r.value.fileName == filename.value && r.value.fileType in AllowedExtensions
  {
    if !componentExists then Err(404)
    else if filename.None? || filename.value == "" then Err(400)
    else if !AllowedFile(filename.value) then Err(400)
    else
      var ext := FileExtension(filename.value);
      Ok(ManualRecord(componentName, filename.value, UploadPrefix + StoredName(componentName, uniqueId, ext), ext, uploadedBy))
  }

  /** The saved file keeps the upload's extension and is itself an allowed
      name; the URL is the upload prefix followed by that name. */
  lemma StoredNameRoundTrip(componentExists: bool, componentName: string, filename: Option<string>, uniqueId: string, uploadedBy: string)
    requires UploadManual(componentExists, componentName, filename, uniqueId, uploadedBy).Ok?
    ensures var rec := UploadManual(componentExists, componentName, filename, uniqueId, uploadedBy).value;
      rec.fileUrl == UploadPrefix + StoredName(componentName, uniqueId, rec.fileType) &&
      FileExtension(StoredName(componentName, uniqueId, rec.fileType)) == rec.fileType &&
      AllowedFile(StoredName(componentName, uniqueId, rec.fileType))
  {
    var ext := FileExtension(filename.value);
    ExtensionShape(filename.value);
    var stored := StoredName(componentName, uniqueId, ext);
    assert stored[|stored| - |ext| - 1] == '.';
    LastSegmentUnique(stored, '.', ext);
  }
}
