/** Profile image uploads (app/api/upload/image/route.ts): the type and size
    checks, the generated file name and public URL, and the file-name guard of
    DELETE. The uploads directory is a map from file name to the stored file;
    `Date.now()` and `crypto.randomBytes(16)` are parameters. */
module Upload {
  import opened Common

  newtype byte = x: int | 0 <= x < 256

  /** What the handler reads from the `image` form field. */
  datatype UploadFile = UploadFile(name: string, mime: string, size: nat)

  datatype Reply = Reply(status: nat, error: Option<string>, imageUrl: Option<string>, filename: Option<string>)

  const MaxFileSize: nat := 5 * 1024 * 1024
  const AllowedTypes: seq<string> := ["image/jpeg", "image/jpg", "image/png", "image/webp"]
  const PublicPrefix := "/uploads/profiles/"

  function BadRequest(msg: string): Reply
  {
    Reply(400, Some(msg), None, None)
  }

  /** The three checks of POST, in source order. None means the file is accepted. */
  function Check(file: Option<UploadFile>): (r: Option<Reply>)
    ensures r.None? <==> file.Some? && file.value.mime in AllowedTypes && file.value.size <= MaxFileSize
    ensures r.Some? ==> r.value.status == 400 && r.value.imageUrl.None?
    ensures file.None? ==> r == Some(BadRequest("No image file provided"))
    ensures file.Some? && file.value.mime !in AllowedTypes ==>
              r == Some(BadRequest("Invalid file type. Only JPEG, PNG, and WebP images are allowed."))
  {
    if file.None? then Some(BadRequest("No image file provided"))
    else if file.value.mime !in AllowedTypes then
      Some(BadRequest("Invalid file type. Only JPEG, PNG, and WebP images are allowed."))
    else if file.value.size > MaxFileSize then
      Some(BadRequest("File size too large. Maximum size is 5MB."))
    else None
  }

  /** The size limit is inclusive. */
  lemma SizeBoundary(name: string)
    ensures Check(Some(UploadFile(name, "image/png", 5242880))).None?
    ensures Check(Some(UploadFile(name, "image/png", 5242881))).Some?
  {
  }

  /** `s.split(sep).pop()`: the text after the last `sep`, or all of `s` when
      there is none. */
  function AfterLast(s: string, sep: char): (r: string)
    ensures sep !in r
    ensures |r| <= |s| && s[|s| - |r|..] == r
    ensures |r| < |s| ==> s[|s| - |r| - 1] == sep
    decreases |s|
  {
    if s == [] then []
    else if s[|s| - 1] == sep then []
    else
      var t := s[..|s| - 1];
      var r := AfterLast(t, sep);
      assert s[|s| - 1 - |r|..|s| - 1] == t[|t| - |r|..];
      assert s[|s| - 1 - |r|..] == s[|s| - 1 - |r|..|s| - 1] + [s[|s| - 1]];
      r + [s[|s| - 1]]
  }

  /** With no separator at all, the whole text is the last piece. */
  lemma AfterLastWhole(s: string, sep: char)
    requires sep !in s
    ensures AfterLast(s, sep) == s
  {
  }

  /** The piece after the last separator of `a + [sep] + b`, where `b` holds no separator, is `b`. */
  lemma {:induction false} AfterLastJoined(a: string, sep: char, b: string)
    requires sep !in b
    ensures AfterLast(a + [sep] + b, sep) == b
    decreases |b|
  {
    var s := a + [sep] + b;
    if b != [] {
      var b' := b[..|b| - 1];
      assert s[..|s| - 1] == a + [sep] + b';
      assert s[|s| - 1] == b[|b| - 1];
      AfterLastJoined(a, sep, b');
      assert b' + [b[|b| - 1]] == b;
    }
  }

  function HexDigit(d: nat): (c: char)
    requires d < 16
    ensures IsHexDigit(c)
  {
    if d < 10 then ('0' as int + d) as char else ('a' as int + d - 10) as char
  }

  predicate IsHexDigit(c: char)
  {
    '0' <= c <= '9' || 'a' <= c <= 'f'
  }

  function HexValue(c: char): (d: nat)
    requires IsHexDigit(c)
    ensures d < 16 && HexDigit(d) == c
  {
    if c <= '9' then c as int - '0' as int else c as int - 'a' as int + 10
  }

  /** `buffer.toString('hex')`: two lower-case hex digits per byte, high half first. */
  function Hex(bytes: seq<byte>): (r: string)
    ensures |r| == 2 * |bytes|
    ensures forall i :: 0 <= i < |r| ==> IsHexDigit(r[i])
  {
    if bytes == [] then []
    else [HexDigit(bytes[0] as nat / 16), HexDigit(bytes[0] as nat % 16)] + Hex(bytes[1..])
  }

  /** Reading hex text back into bytes. */
  function Unhex(s: string): (bytes: seq<byte>)
    requires |s| % 2 == 0 && forall i :: 0 <= i < |s| ==> IsHexDigit(s[i])
  {
    if s == [] then []
    else [(HexValue(s[0]) * 16 + HexValue(s[1])) as byte] + Unhex(s[2..])
  }

  /** The hex text loses nothing: different random bytes give different names. */
  lemma {:induction false} HexRoundTrip(bytes: seq<byte>)
    ensures Unhex(Hex(bytes)) == bytes
  {
    if bytes != [] {
      var h := Hex(bytes);
      assert h[2..] == Hex(bytes[1..]);
      HexRoundTrip(bytes[1..]);
      var b := bytes[0] as nat;
      assert HexValue(h[0]) == b / 16 && HexValue(h[1]) == b % 16;
    }
  }

  /** `file.name.split('.').pop()`. */
  function Extension(name: string): (r: string)
    ensures '.' !in r
  {
    AfterLast(name, '.')
  }

  /** Everything before the extension's '.'. */
  function Stem(timestamp: nat, random: seq<byte>): string
  {
    "profile_" + NatToDecimal(timestamp) + "_" + Hex(random)
  }

  /** `profile_${timestamp}_${uniqueId}.${fileExtension}`. */
  function Filename(timestamp: nat, random: seq<byte>, name: string): string
  {
    Stem(timestamp, random) + "." + Extension(name)
  }

  function ImageUrl(filename: string): (r: string)
    ensures PublicPrefix <= r && r[|PublicPrefix|..] == filename
  {
    PublicPrefix + filename
  }

  /** No '.', '/' or '\\' anywhere in `s`. */
  predicate NoDotOrSlash(s: string)
  {
    forall k :: 0 <= k < |s| ==> s[k] != '.' && s[k] != '/' && s[k] != '\\'
  }

  /** The stem is made of letters, digits and '_'. */
  lemma StemPlain(timestamp: nat, random: seq<byte>)
    ensures NoDotOrSlash(Stem(timestamp, random))
  {
    var d := NatToDecimal(timestamp);
    var h := Hex(random);
    var p := "profile_";
    var st := Stem(timestamp, random);
    assert st == p + d + "_" + h;
    forall k | 0 <= k < |st|
      ensures st[k] != '.' && st[k] != '/' && st[k] != '\\'
    {
      if k < |p| {
        assert st[k] == p[k];
      } else if k < |p| + |d| {
        assert st[k] == d[k - |p|] && IsDigit(d[k - |p|]);
      } else if k == |p| + |d| {
        assert st[k] == '_';
      } else {
        assert st[k] == h[k - |p| - |d| - 1] && IsHexDigit(h[k - |p| - |d| - 1]);
      }
    }
  }

  /** The stored name keeps the original name's extension. */
  lemma FilenameExtension(timestamp: nat, random: seq<byte>, name: string)
    ensures AfterLast(Filename(timestamp, random, name), '.') == Extension(name)
  {
    var stem := Stem(timestamp, random);
    var ext := Extension(name);
    assert stem + "." + ext == stem + ['.'] + ext;
    AfterLastJoined(stem, '.', ext);
  }

  /** The stored name holds exactly one '.', the one before the extension, so
      it never contains "..". */
  lemma FilenameNoDotDot(timestamp: nat, random: seq<byte>, name: string)
    ensures !Contains(Filename(timestamp, random, name), "..")
  {
    StemPlain(timestamp, random);
    OneDotNoPair(Stem(timestamp, random), Extension(name));
  }

  /** Text with no two adjacent copies of `c` does not contain `[c, c]`. */
  lemma {:induction false} NoPair(s: string, c: char)
    requires forall i :: 0 <= i < |s| - 1 ==> !(s[i] == c && s[i + 1] == c)
    ensures !Contains(s, [c, c])
    decreases |s|
  {
    if s != [] {
      if |s| >= 2 {
        assert !(s[0] == c && s[1] == c);
      }
      forall i | 0 <= i < |s[1..]| - 1
        ensures !(s[1..][i] == c && s[1..][i + 1] == c)
      {
        assert s[1..][i] == s[i + 1] && s[1..][i + 1] == s[i + 2];
      }
      NoPair(s[1..], c);
    }
  }

  lemma OneDotNoPair(a: string, b: string)
    requires '.' !in a && '.' !in b
    ensures !Contains(a + "." + b, "..")
  {
    var s := a + "." + b;
    forall i | 0 <= i < |s| - 1
      ensures !(s[i] == '.' && s[i + 1] == '.')
    {
      if i < |a| {
        assert s[i] == a[i];
      } else if i == |a| {
        assert s[i + 1] == b[0];
      } else {
        assert s[i] == b[i - |a| - 1];
      }
    }
    NoPair(s, '.');
  }

  /** The guard of DELETE, as written: a name that is missing or empty, or that
      contains "..", "/" or "\", is refused. */
  predicate DeleteAllowed(filename: Option<string>)
  {
    filename.Some? && filename.value != ""
    && !Contains(filename.value, "..") && !Contains(filename.value, "/") && !Contains(filename.value, "\\")
  }

  /** `join(uploadDir, filename)`. */
  function Join(dir: string, filename: string): string
  {
    dir + "/" + filename
  }

  /** A name the guard lets through has no separator, so it is the last
      component of the joined path: an entry directly inside the uploads
      directory, or for "." the directory itself, which `path.join`
      normalises away and `Join` does not (see `DotPassesGuard`). */
  lemma DeleteStaysInDir(dir: string, filename: Option<string>)
    requires DeleteAllowed(filename)
    ensures '/' !in filename.value && '\\' !in filename.value
    ensures AfterLast(Join(dir, filename.value), '/') == filename.value
  {
    ContainsChar(filename.value, '/');
    ContainsChar(filename.value, '\\');
    assert Join(dir, filename.value) == dir + ['/'] + filename.value;
    AfterLastJoined(dir, '/', filename.value);
  }

  /** The guard lets "." through. No generated name is ".", so the directory
      never holds that entry and `Delete` answers it with 500, as unlinking
      the directory itself fails. */
  lemma DotPassesGuard(timestamp: nat, random: seq<byte>, name: string)
    ensures DeleteAllowed(Some("."))
    ensures Filename(timestamp, random, name) != "."
  {
    assert !Contains(".", "..") by {
      assert !(".." <= ".") && "."[1..] == [];
      assert !Contains([], "..");
    }
    ContainsChar(".", '/');
    ContainsChar(".", '\\');
  }

  /** Every name POST generates from an original name without separators can be deleted again. */
  lemma GeneratedNameDeletable(timestamp: nat, random: seq<byte>, name: string)
    requires '/' !in name && '\\' !in name
    ensures DeleteAllowed(Some(Filename(timestamp, random, name)))
  {
    var stem := Stem(timestamp, random);
    var ext := Extension(name);
    var f := Filename(timestamp, random, name);
    FilenameNoDotDot(timestamp, random, name);
    StemPlain(timestamp, random);
    assert '/' !in stem && '\\' !in stem;
    assert '/' !in ext && '\\' !in ext by {
      assert name[|name| - |ext|..] == ext;
      SuffixKeepsOut(name, |name| - |ext|, '/');
      SuffixKeepsOut(name, |name| - |ext|, '\\');
    }
    assert f == stem + "." + ext;
    ContainsChar(f, '/');
    ContainsChar(f, '\\');
  }

  lemma SuffixKeepsOut(s: string, i: nat, c: char)
    requires i <= |s| && c !in s
    ensures c !in s[i..]
  {
    forall k | 0 <= k < |s| - i
      ensures s[i..][k] != c
    {
      assert s[i..][k] == s[i + k];
    }
  }

  /** The uploads directory. */
  class UploadDir {
    var files: map<string, UploadFile>

    constructor ()
      ensures files == map[]
    {
      files := map[];
    }

    /** `POST /api/upload/image`. `formRead` false is a body that
        `request.formData()` cannot read; `random` is the 16 bytes of
        `crypto.randomBytes(16)`; `writeFails` is a failing `writeFile`. */
    method Post(formRead: bool, file: Option<UploadFile>, timestamp: nat, random: seq<byte>, writeFails: bool)
      returns (r: Reply)
      requires |random| == 16
      modifies this
      ensures !formRead ==> r == Reply(500, Some("Failed to upload image"), None, None) && files == old(files)
      ensures formRead && Check(file).Some? ==> r == Check(file).value && files == old(files)
      ensures formRead && Check(file).None? && writeFails ==>
                r == Reply(500, Some("Failed to upload image"), None, None) && files == old(files)
      ensures formRead && Check(file).None? && !writeFails ==>
                var f := Filename(timestamp, random, file.value.name);
                && r == Reply(200, None, Some(ImageUrl(f)), Some(f))
                && files == old(files)[f := file.value]
    {
      if !formRead {
        return Reply(500, Some("Failed to upload image"), None, None);
      }
      var refused := Check(file);
      if refused.Some? {
        return refused.value;
      }
      var f := Filename(timestamp, random, file.value.name);
      if writeFails {
        return Reply(500, Some("Failed to upload image"), None, None);
      }
      files := files[f := file.value];
      r := Reply(200, None, Some(ImageUrl(f)), Some(f));
    }

    /** `DELETE /api/upload/image?filename=...`. Unlinking a name that is not
        in the directory throws and is answered with 500. */
    method Delete(filename: Option<string>) returns (status: nat)
      modifies this
      ensures !DeleteAllowed(filename) ==> status == 400 && files == old(files)
      ensures DeleteAllowed(filename) && filename.value !in old(files) ==> status == 500 && files == old(files)
      ensures DeleteAllowed(filename) && filename.value in old(files) ==>
                status == 200 && files == old(files) - {filename.value}
    {
      if filename.None? || filename.value == "" {
        return 400;
      }
      var name := filename.value;
      if Contains(name, "..") || Contains(name, "/") || Contains(name, "\\") {
        return 400;
      }
      if name !in files {
        return 500;
      }
      files := files - {name};
      status := 200;
    }
  }

  /** Deleting what an upload just stored gives back the directory as it was. */
  lemma UploadThenDelete(files: map<string, UploadFile>, f: string, file: UploadFile)
    requires f !in files
    ensures f in files[f := file] && (files[f := file] - {f}) == files
  {
  }
}
