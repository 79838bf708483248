/**
 * The upload store: the content-type allow-list and the relative path `SaveFile` hands back.
 * Creating directories and copying bytes are not modelled; the UUID and the formatted
 * timestamp (`20060102-150405` layout) of the new name are parameters.
 */
module Filestore {
  import opened Wrappers
  import Text

  /** The content types `isAllowedFileType` admits, all lower-case. */
  const AllowedTypes: set<string> := {
    "image/jpeg", "image/png", "image/gif",
    "video/mp4", "video/webm", "video/quicktime", "video/x-msvideo", "video/x-matroska"
  }

  /** `isAllowedFileType`: the content type, lower-cased, is one of the listed ones. */
  predicate IsAllowedFileType(contentType: string)
  {
    Text.ToLower(contentType) in AllowedTypes
  }

  /** Only images and videos get through, and the test ignores letter case. */
  lemma AllowedIsMedia(contentType: string)
    ensures IsAllowedFileType(contentType) ==>
      Text.StartsWith(Text.ToLower(contentType), "image/") || Text.StartsWith(Text.ToLower(contentType), "video/")
    ensures IsAllowedFileType(contentType) == IsAllowedFileType(Text.ToLower(contentType))
  {
    Text.ToLowerIdempotent(contentType);
    forall t | t in AllowedTypes ensures Text.StartsWith(t, "image/") || Text.StartsWith(t, "video/") {
      MediaPrefix(t);
    }
  }

  /** Each listed type names an image or a video. */
  lemma MediaPrefix(t: string)
    requires t in AllowedTypes
    ensures t[..6] == "image/" || t[..6] == "video/"
  {
    if t == "image/jpeg" || t == "image/png" || t == "image/gif" {
      assert t[..6] == "image/";
    } else {
      assert t[..6] == "video/";
    }
  }

  /** `filepath.Ext`: from the last '.' of the final path element to the end, or "" when it has none. */
  function Ext(path: string): (e: string)
    ensures e == "" || (e[0] == '.' && Text.EndsWith(path, e))
    ensures forall i :: 1 <= i < |e| ==> e[i] != '.' && e[i] != '/'
  {
    ExtBefore(path, |path|)
  }

  /** The scan of `filepath.Ext`, from position `i` leftwards. */
  function ExtBefore(path: string, i: nat): (e: string)
    requires i <= |path|
    requires forall k :: i <= k < |path| ==> path[k] != '.' && path[k] != '/'
    ensures e == "" || (e[0] == '.' && |e| <= |path| && e == path[|path| - |e|..])
    ensures forall k :: 1 <= k < |e| ==> e[k] != '.' && e[k] != '/'
    ensures e != "" ==> |path| - |e| < i
    decreases i
  {
    if i == 0 then ""
    else if path[i - 1] == '/' then ""
    else if path[i - 1] == '.' then path[i - 1..]
    else ExtBefore(path, i - 1)
  }

  /** Whatever precedes an extension, the extension is what `filepath.Ext` finds again. */
  lemma ExtOfSuffix(prefix: string, file: string)
    requires Ext(file) != ""
    ensures Ext(prefix + Ext(file)) == Ext(file)
  {
    var e := Ext(file);
    var p := prefix + e;
    ExtScan(p, |prefix|, |p|);
  }

  /** Scanning leftwards over characters that are neither '.' nor '/' reaches the '.' at `dot`. */
  lemma {:induction false} ExtScan(p: string, dot: nat, i: nat)
    requires dot < i <= |p| && p[dot] == '.'
    requires forall k :: dot < k < |p| ==> p[k] != '.' && p[k] != '/'
    ensures ExtBefore(p, i) == p[dot..]
    decreases i
  {
    if i - 1 != dot {
      ExtScan(p, dot, i - 1);
    }
  }

  /** An upload: the client's file name and the Content-Type header of its part. */
  datatype Upload = Upload(filename: string, contentType: string)

  /** `SaveFile`: the relative path of the stored file, or the refusal of its content type. */
  function SaveFile(file: Upload, subdir: string, id: string, stamp: string): (r: Result<string>)
    ensures r.Err? <==> !IsAllowedFileType(file.contentType)
    ensures r.Err? ==> r.msg == "unsupported file type: " + file.contentType
    ensures r.Ok? && subdir != "" ==> r.value == subdir + "/" + id + "-" + stamp + Ext(file.filename)
    ensures r.Ok? && subdir == "" ==> r.value == id + "-" + stamp + Ext(file.filename)
  {
    if !IsAllowedFileType(file.contentType) then Err("unsupported file type: " + file.contentType)
    else
      var name := id + "-" + stamp + Ext(file.filename);
      Ok(if subdir != "" then subdir + "/" + name else name)
  }

  /** The stored name keeps the original file's extension. */
  lemma SavedKeepsExtension(file: Upload, subdir: string, id: string, stamp: string)
    requires SaveFile(file, subdir, id, stamp).Ok? && Ext(file.filename) != ""
    ensures Ext(SaveFile(file, subdir, id, stamp).value) == Ext(file.filename)
    ensures Text.EndsWith(SaveFile(file, subdir, id, stamp).value, Ext(file.filename))
  {
    var name := id + "-" + stamp + Ext(file.filename);
    if subdir != "" {
      assert subdir + "/" + name == (subdir + "/" + id + "-" + stamp) + Ext(file.filename);
      ExtOfSuffix(subdir + "/" + id + "-" + stamp, file.filename);
    } else {
      assert name == (id + "-" + stamp) + Ext(file.filename);
      ExtOfSuffix(id + "-" + stamp, file.filename);
    }
  }
}
