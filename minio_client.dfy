/** Naming of paint images in the object store: the extension taken from
    the uploaded file name (or guessed from its content type), the object
    name "paint_<id><ext>" and the bucket. The transfer itself is not
    modelled; its failure is an input. */
module MinioClient {
  import opened Common
  import Text

  /** GetImgBucket. */
  const ImgBucket: string := "test"

  /** filepath.Ext: the suffix from the last '.' of the last path element,
      or "" when that element has no '.'. */
  function Ext(path: string): (ext: string)
    ensures ext == [] || (ext[0] == '.' && |ext| <= |path| && path[|path| - |ext|..] == ext)
    ensures forall i :: 0 <= i < |ext| ==> ext[i] != '/'
    ensures forall i :: 1 <= i < |ext| ==> ext[i] != '.'
    ensures ext == [] ==>
      forall i :: 0 <= i < |path| && path[i] == '.' ==> exists j :: i < j < |path| && path[j] == '/'
  {
    if path == [] || path[|path| - 1] == '/' then []
    else if path[|path| - 1] == '.' then ['.']
    else
      var e := Ext(path[..|path| - 1]);
      if e == [] then [] else e + [path[|path| - 1]]
  }

  /** The extension used when the file name has none. */
  function ExtForContentType(contentType: string): (ext: string)
    ensures |ext| >= 2 && ext[0] == '.'
  {
    if contentType == "image/jpeg" then ".jpg"
    else if contentType == "image/png" then ".png"
    else if contentType == "image/gif" then ".gif"
    else ".bin"
  }

  function ImageExt(fileName: string, contentType: string): (ext: string)
    ensures |ext| >= 1 && ext[0] == '.'
    ensures Ext(fileName) != [] ==> ext == Ext(fileName)
    ensures Ext(fileName) == [] ==> ext == ExtForContentType(contentType)
    ensures Ext(fileName) == [] && contentType == "image/jpeg" ==> ext == ".jpg"
    ensures Ext(fileName) == [] && contentType == "image/png" ==> ext == ".png"
    ensures Ext(fileName) == [] && contentType == "image/gif" ==> ext == ".gif"
    ensures Ext(fileName) == [] && contentType !in {"image/jpeg", "image/png", "image/gif"} ==> ext == ".bin"
  {
    var e := Ext(fileName);
    if e == [] then ExtForContentType(contentType) else e
  }

  /** fmt.Sprintf("paint_%d%s", id, ext). */
  function ObjectName(id: nat, fileName: string, contentType: string): string {
    "paint_" + Text.NatToString(id) + ImageExt(fileName, contentType)
  }

  /** UploadPaintImage: the object name, or the transfer's error (an empty
      name in the source). */
  function UploadPaintImage(id: nat, fileName: string, contentType: string, uploadFails: bool): (r: Result<string>)
    ensures r.Ok? <==> !uploadFails
    ensures r.Ok? ==> Text.HasPrefix(r.value, "paint_")
    ensures r.Ok? ==> r.value == "paint_" + Text.NatToString(id) + ImageExt(fileName, contentType)
  {
    if uploadFails then Err(Store("upload failed"))
    else Ok(ObjectName(id, fileName, contentType))
  }

  /** Images of distinct paints never share an object name, whatever files
      were uploaded: the digits after "paint_" run up to the extension's
      '.', so the name determines the id. */
  lemma ObjectNameDeterminesId(a: nat, fa: string, ca: string, b: nat, fb: string, cb: string)
    ensures ObjectName(a, fa, ca) == ObjectName(b, fb, cb) ==> a == b
  {
    var na, nb := Text.NatToString(a), Text.NatToString(b);
    var ea, eb := ImageExt(fa, ca), ImageExt(fb, cb);
    if ObjectName(a, fa, ca) == ObjectName(b, fb, cb) {
      AfterPrefix("paint_", na, ea);
      AfterPrefix("paint_", nb, eb);
      DigitsBeforeDot(na, ea, nb, eb);
      Text.DigitsValueOfNatToString(a);
      Text.DigitsValueOfNatToString(b);
    }
  }

  /** Digits followed by an extension split in one way only: the first '.'
      is where the extension starts. */
  lemma DigitsBeforeDot(da: string, ea: string, db: string, eb: string)
    requires forall i :: 0 <= i < |da| ==> Text.IsDigit(da[i])
    requires forall i :: 0 <= i < |db| ==> Text.IsDigit(db[i])
    requires |ea| >= 1 && ea[0] == '.' && |eb| >= 1 && eb[0] == '.'
    requires da + ea == db + eb
    ensures da == db
  {
    DotNotEarlier(da, ea, db, eb);
    DotNotEarlier(db, eb, da, ea);
    assert da == (da + ea)[..|da|];
    assert db == (db + eb)[..|db|];
  }

  /** The extension's '.' cannot fall inside the other side's digits. */
  lemma DotNotEarlier(da: string, ea: string, db: string, eb: string)
    requires forall i :: 0 <= i < |db| ==> Text.IsDigit(db[i])
    requires |ea| >= 1 && ea[0] == '.'
    requires da + ea == db + eb
    ensures |db| <= |da|
  {
    assert (da + ea)[|da|] == '.';
    assert forall i :: 0 <= i < |db| ==> (db + eb)[i] == db[i];
  }

  /** What follows a prefix of a concatenation. */
  lemma AfterPrefix(p: string, x: string, y: string)
    ensures (p + x + y)[|p|..] == x + y
  {
  }
}
