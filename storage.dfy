/** Storage artifacts of a presentation (lib/storage.ts): object keys for the
    PDF and its thumbnail, uploads and deletions against the object store
    (whose outcomes are parameters), recovery of a key from a public URL, and
    the two pre-flight validators. */
module Storage {
  import opened Text

  const PdfBucket := "presentations-pdfs"
  const ThumbnailBucket := "presentations-thumbnails"
  const PdfMaxSize := 52428800
  const ThumbnailMaxSize := 5242880
  const ThumbnailTypes := ["image/png", "image/jpeg", "image/jpg", "image/webp"]

  /** A browser `File`: its name, declared media type and size in bytes. */
  datatype FileInfo = FileInfo(name: string, mimeType: string, size: nat)

  /** What `uploadThumbnail` receives: a named `File` or an anonymous `Blob`. */
  datatype Body = FileBody(fileName: string) | BlobBody

  /** The `{publicUrl, storagePath}` pair an upload returns. */
  datatype Stored = Stored(publicUrl: string, storagePath: string)

  /** A value, or the message of the `Error` the source throws. */
  datatype Result<+T> = Ok(value: T) | Err(message: string)

  /** The `{valid, error?}` object the validators return. */
  datatype Validation = Validation(valid: bool, error: Option<string>)

  /** One `remove` call made on the object store. */
  datatype Removal = Removal(bucket: string, path: string)

  // ------------------------------------------------------------ sanitising

  /** The characters `/[^a-zA-Z0-9.-]/g` leaves alone. */
  predicate KeyChar(c: char)
  {
    'a' <= c <= 'z' || 'A' <= c <= 'Z' || '0' <= c <= '9' || c == '.' || c == '-'
  }

  /** Every character may appear in a sanitised name. */
  predicate IsSanitized(s: string)
  {
    forall i :: 0 <= i < |s| ==> KeyChar(s[i]) || s[i] == '_'
  }

  /** The number of UTF-16 code units of `c`: two (a surrogate pair) above
      U+FFFF, one otherwise. */
  function CodeUnits(c: char): nat
  {
    if c as int > 0xFFFF then 2 else 1
  }

  /** The length of `s` as JavaScript counts it, in UTF-16 code units. */
  function Utf16Length(s: string): nat
  {
    if |s| == 0 then 0 else CodeUnits(s[0]) + Utf16Length(s[1..])
  }

  /** What the pattern makes of one character: an allowed character stays,
      any other code unit becomes `_`. */
  function Replaced(c: char): string
  {
    if KeyChar(c) then [c] else if CodeUnits(c) == 2 then "__" else "_"
  }

  /** `name.replace(/[^a-zA-Z0-9.-]/g, '_')`. The pattern has no `u` flag,
      so it matches UTF-16 code units: a character above U+FFFF becomes
      two `_`. */
  function Sanitize(name: string): string
  {
    if |name| == 0 then "" else Replaced(name[0]) + Sanitize(name[1..])
  }

  /** The sanitised name has as many characters as the name has UTF-16
      code units, and holds only allowed characters and `_`. */
  lemma {:induction false} SanitizeChars(name: string)
    ensures |Sanitize(name)| == Utf16Length(name)
    ensures IsSanitized(Sanitize(name))
  {
    if |name| > 0 {
      SanitizeChars(name[1..]);
      var head := Replaced(name[0]);
      var r := Sanitize(name);
      forall i | 0 <= i < |r| ensures KeyChar(r[i]) || r[i] == '_' {
        if i >= |head| {
          assert r[i] == Sanitize(name[1..])[i - |head|];
        }
      }
    }
  }

  /** Sanitising works piece by piece. */
  lemma {:induction false} SanitizeAppend(a: string, b: string)
    ensures Sanitize(a + b) == Sanitize(a) + Sanitize(b)
  {
    if |a| == 0 {
      assert a + b == b;
    } else {
      var t := a[1..];
      calc {
        Sanitize(a + b);
        == { assert a + b == [a[0]] + (t + b); SanitizeCons(a[0], t + b); }
        Replaced(a[0]) + Sanitize(t + b);
        == { SanitizeAppend(t, b); }
        Replaced(a[0]) + (Sanitize(t) + Sanitize(b));
        == { assert a == [a[0]] + t; SanitizeCons(a[0], t); }
        Sanitize(a) + Sanitize(b);
      }
    }
  }

  lemma SanitizeCons(c: char, t: string)
    ensures Sanitize([c] + t) == Replaced(c) + Sanitize(t)
  {
    assert ([c] + t)[1..] == t;
  }

  /** Each character of the name is sanitised in place: an allowed one is
      kept, any other becomes one `_` per UTF-16 code unit. */
  lemma SanitizeAt(name: string, i: nat)
    requires i < |name|
    ensures KeyChar(name[i]) ==>
      Sanitize(name) == Sanitize(name[..i]) + [name[i]] + Sanitize(name[i + 1..])
    ensures !KeyChar(name[i]) && CodeUnits(name[i]) == 1 ==>
      Sanitize(name) == Sanitize(name[..i]) + "_" + Sanitize(name[i + 1..])
    ensures !KeyChar(name[i]) && CodeUnits(name[i]) == 2 ==>
      Sanitize(name) == Sanitize(name[..i]) + "__" + Sanitize(name[i + 1..])
  {
    var pre, post := name[..i], name[i + 1..];
    var h := Replaced(name[i]);
    calc {
      Sanitize(name);
      == { assert name == pre + ([name[i]] + post); }
      Sanitize(pre + ([name[i]] + post));
      == { SanitizeAppend(pre, [name[i]] + post); }
      Sanitize(pre) + Sanitize([name[i]] + post);
      == { SanitizeCons(name[i], post); }
      Sanitize(pre) + (h + Sanitize(post));
      ==
      Sanitize(pre) + h + Sanitize(post);
    }
  }

  /** Names without characters above U+FFFF keep their length; allowed
      characters stay in place and every other character becomes `_`. */
  lemma {:induction false} SanitizeBmp(name: string)
    requires forall i :: 0 <= i < |name| ==> name[i] as int <= 0xFFFF
    ensures |Sanitize(name)| == |name|
    ensures forall i :: 0 <= i < |name| && KeyChar(name[i]) ==> Sanitize(name)[i] == name[i]
    ensures forall i :: 0 <= i < |name| && !KeyChar(name[i]) ==> Sanitize(name)[i] == '_'
  {
    if |name| > 0 {
      SanitizeBmp(name[1..]);
      assert |Replaced(name[0])| == 1;
    }
  }

  /** An emoji, a surrogate pair in JavaScript, becomes two `_`. */
  lemma SanitizeAstral()
    ensures Sanitize("\U{1F600}.pdf") == "__.pdf"
  {
    var name := "\U{1F600}.pdf";
    assert Replaced(name[0]) == "__";
    assert name[1..] == ".pdf";
    SanitizeFixesSafeNames(".pdf");
  }

  /** The output alphabet is `[A-Za-z0-9._-]`, so no key separator can be
      injected, and sanitising is idempotent. */
  lemma SanitizeSafe(name: string)
    ensures IsSanitized(Sanitize(name))
    ensures '/' !in Sanitize(name)
    ensures Sanitize(Sanitize(name)) == Sanitize(name)
  {
    SanitizeChars(name);
    SanitizeFixesSafeNames(Sanitize(name));
  }

  /** A name already in the output alphabet is unchanged. */
  lemma {:induction false} SanitizeFixesSafeNames(name: string)
    requires IsSanitized(name)
    ensures Sanitize(name) == name
  {
    if |name| > 0 {
      SanitizeFixesSafeNames(name[1..]);
      assert Replaced(name[0]) == [name[0]];
      assert [name[0]] + name[1..] == name;
    }
  }

  // ---------------------------------------------------------------- keys

  /** `pdfs/${timestamp}-${sanitizedFileName}`. */
  function PdfKey(timestamp: nat, fileName: string): string
  {
    "pdfs/" + NatToString(timestamp) + "-" + Sanitize(fileName)
  }

  /** The PDF key lies in the `pdfs/` folder, holds exactly one `/`, and ends
      with the sanitised file name after the timestamp and a `-`. */
  lemma PdfKeyShape(timestamp: nat, fileName: string)
    ensures Count(PdfKey(timestamp, fileName), '/') == 1
    ensures PdfKey(timestamp, fileName)[..5] == "pdfs/"
    ensures var k := PdfKey(timestamp, fileName);
            var n := |Sanitize(fileName)|;
            k[|k| - n..] == Sanitize(fileName) && k[|k| - n - 1] == '-'
  {
    var ts := NatToString(timestamp);
    SanitizeSafe(fileName);
    CountAbsent(ts, '/');
    CountAbsent(Sanitize(fileName), '/');
    CountAppend("pdfs/", ts, '/');
    CountAppend("pdfs/" + ts, "-", '/');
    CountAppend("pdfs/" + ts + "-", Sanitize(fileName), '/');
    assert Count("pdfs/", '/') == 1;
  }

  /** The position just after the last `sep` among the first `n` characters
      of `s`, or 0 when there is none. */
  function LastSeparatorEnd(s: string, sep: char, n: nat): (k: nat)
    requires n <= |s|
    ensures k <= n
    ensures k > 0 ==> s[k - 1] == sep
    ensures forall i :: k <= i < n ==> s[i] != sep
  {
    if n == 0 then 0
    else if s[n - 1] == sep then n
    else LastSeparatorEnd(s, sep, n - 1)
  }

  /** Only one position has a `sep` just before it (or is 0) and no `sep`
      after it. */
  lemma LastSeparatorEndUnique(s: string, sep: char, k: nat)
    requires k <= |s|
    requires k > 0 ==> s[k - 1] == sep
    requires forall i :: k <= i < |s| ==> s[i] != sep
    ensures LastSeparatorEnd(s, sep, |s|) == k
  {
  }

  /** `s.split(sep).pop()`: the text after the last `sep`, or all of `s`. */
  function AfterLast(s: string, sep: char): (r: string)
    ensures sep !in r
  {
    var k := LastSeparatorEnd(s, sep, |s|);
    assert forall i :: 0 <= i < |s[k..]| ==> s[k..][i] == s[k + i];
    s[k..]
  }

  /** `AfterLast` is the last piece of JavaScript's `split`. */
  lemma AfterLastIsLastPiece(s: string, sep: char)
    ensures var parts := Split(s, sep); AfterLast(s, sep) == parts[|parts| - 1]
  {
    LastPieceByInduction(s, sep);
  }

  predicate IsLastPiece(s: string, sep: char)
  {
    var parts := Split(s, sep); AfterLast(s, sep) == parts[|parts| - 1]
  }

  lemma {:induction false} LastPieceByInduction(s: string, sep: char)
    ensures IsLastPiece(s, sep)
  {
    if |s| == 0 {
      assert Split(s, sep) == [""];
    } else {
      LastPieceByInduction(s[1..], sep);
      if s[0] == sep {
        LastPieceAfterLeadingSeparator(s, sep);
      } else if sep in s[1..] {
        LastPieceAfterLaterSeparator(s, sep);
      } else {
        LastPieceWithoutSeparator(s, sep);
      }
    }
  }

  lemma LastPieceAfterLeadingSeparator(s: string, sep: char)
    requires |s| > 0 && s[0] == sep && IsLastPiece(s[1..], sep)
    ensures IsLastPiece(s, sep)
  {
    assert Split(s, sep) == [""] + Split(s[1..], sep);
    AfterLastOfTail(s, sep);
  }

  lemma LastPieceAfterLaterSeparator(s: string, sep: char)
    requires |s| > 0 && s[0] != sep && sep in s[1..] && IsLastPiece(s[1..], sep)
    ensures IsLastPiece(s, sep)
  {
    var parts := Split(s, sep);
    var rest := Split(s[1..], sep);
    SplitPieces(s[1..], sep);
    CountAbsent(s[1..], sep);
    assert parts == [[s[0]] + rest[0]] + rest[1..];
    assert parts[|parts| - 1] == rest[|rest| - 1];
    AfterLastOfTail(s, sep);
  }

  lemma LastPieceWithoutSeparator(s: string, sep: char)
    requires |s| > 0 && s[0] != sep && sep !in s[1..]
    ensures IsLastPiece(s, sep)
  {
    SplitFree(s[1..], sep);
    assert Split(s, sep) == [[s[0]] + s[1..]];
    assert [s[0]] + s[1..] == s;
    forall i | 0 <= i < |s| ensures s[i] != sep {
      if i > 0 {
        assert s[i] == s[1..][i - 1];
      }
    }
    LastSeparatorEndUnique(s, sep, 0);
  }

  /** Once a separator occurs in `s`, the text after the last one lies in
      `s[1..]`. */
  lemma AfterLastOfTail(s: string, sep: char)
    requires |s| > 0 && (s[0] == sep || sep in s[1..])
    ensures AfterLast(s, sep) == AfterLast(s[1..], sep)
  {
    var t := s[1..];
    var k := LastSeparatorEnd(t, sep, |t|);
    if k == 0 {
      assert sep !in t;
    }
    forall i | k + 1 <= i < |s| ensures s[i] != sep {
      assert s[i] == t[i - 1];
    }
    LastSeparatorEndUnique(s, sep, k + 1);
    assert s[k + 1..] == t[k..];
  }

  /** The thumbnail's extension: `png` for a Blob, otherwise the text after
      the last `.` of the file name, or `png` when that is empty. */
  function ThumbnailExtension(body: Body): (r: string)
    ensures r != "" && '.' !in r
    ensures body.BlobBody? ==> r == "png"
    ensures body.FileBody? && AfterLast(body.fileName, '.') != "" ==> r == AfterLast(body.fileName, '.')
  {
    if body.BlobBody? then "png"
    else
      var last := AfterLast(body.fileName, '.');
      if last == "" then "png" else last
  }

  /** `s.replace(/\.[^/.]+$/, '')`: drop a final `.ext` whose `ext` is
      non-empty and holds neither `.` nor `/`. */
  function StripExtension(s: string): string
  {
    var k := LastSeparatorEnd(s, '.', |s|);
    if 0 < k < |s| && '/' !in s[k..] then s[..k - 1] else s
  }

  /** What is removed is a final `.ext` with a non-empty `ext` free of `.`
      and `/`; when nothing is removed, the name has no such suffix. */
  lemma StripExtensionRemovesSuffix(s: string)
    ensures var r := StripExtension(s);
      |r| <= |s| && s[..|r|] == r
    ensures var r := StripExtension(s);
      r != s ==> |s| - |r| >= 2 && s[|r|] == '.' && '.' !in s[|r| + 1..] && '/' !in s[|r| + 1..]
    ensures StripExtension(s) == s ==>
      forall i :: 0 <= i < |s| - 1 && s[i] == '.' ==> '.' in s[i + 1..] || '/' in s[i + 1..]
  {
    var k := LastSeparatorEnd(s, '.', |s|);
    if 0 < k < |s| && '/' !in s[k..] {
      assert '.' !in s[k..];
    } else {
      forall i | 0 <= i < |s| - 1 && s[i] == '.' && '.' !in s[i + 1..]
        ensures '/' in s[i + 1..]
      {
        forall j | i + 1 <= j < |s| ensures s[j] != '.' {
          assert s[j] == s[i + 1..][j - i - 1];
        }
        LastSeparatorEndUnique(s, '.', i + 1);
      }
    }
  }

  /** The base name: `thumbnail` without an original name, else the sanitised
      original without its final extension. */
  function ThumbnailBaseName(originalFileName: Option<string>): string
  {
    match originalFileName
    case Some(name) => if name == "" then "thumbnail" else StripExtension(Sanitize(name))
    case None => "thumbnail"
  }

  /** The base name is in the sanitised alphabet, so it holds no `/`. */
  lemma ThumbnailBaseNameSafe(originalFileName: Option<string>)
    ensures IsSanitized(ThumbnailBaseName(originalFileName)) && '/' !in ThumbnailBaseName(originalFileName)
  {
    if originalFileName.Some? && originalFileName.value != "" {
      var name := originalFileName.value;
      SanitizeSafe(name);
      StripExtensionRemovesSuffix(Sanitize(name));
    }
  }

  /** `thumbnails/${timestamp}-${baseName}.${extension}`. */
  function ThumbnailKey(timestamp: nat, body: Body, originalFileName: Option<string>): string
  {
    "thumbnails/" + NatToString(timestamp) + "-" + ThumbnailBaseName(originalFileName) + "."
      + ThumbnailExtension(body)
  }

  /** The thumbnail key lies in `thumbnails/` and has no other `/` than those
      of the (unsanitised) extension: exactly one when the file name's last
      segment has none, always exactly one for a Blob. */
  lemma ThumbnailKeyShape(timestamp: nat, body: Body, originalFileName: Option<string>)
    ensures Count(ThumbnailKey(timestamp, body, originalFileName), '/')
            == 1 + Count(ThumbnailExtension(body), '/')
    ensures body.BlobBody? ==> Count(ThumbnailKey(timestamp, body, originalFileName), '/') == 1
  {
    var ext := ThumbnailExtension(body);
    ThumbnailFolderSlash();
    ThumbnailBaseNameSafe(originalFileName);
    KeySlashes("thumbnails/", NatToString(timestamp), ThumbnailBaseName(originalFileName), ext);
    if body.BlobBody? {
      CountAbsent(ext, '/');
    }
  }

  lemma ThumbnailFolderSlash()
    ensures Count("thumbnails/", '/') == 1
  {
  }

  lemma KeySlashes(folder: string, ts: string, base: string, ext: string)
    requires '/' !in ts && '/' !in base
    ensures Count(folder + ts + "-" + base + "." + ext, '/') == Count(folder, '/') + Count(ext, '/')
  {
    CountAbsent(ts, '/');
    CountAbsent(base, '/');
    CountAppend(folder, ts, '/');
    CountAppend(folder + ts, "-", '/');
    CountAppend(folder + ts + "-", base, '/');
    CountAppend(folder + ts + "-" + base, ".", '/');
    CountAppend(folder + ts + "-" + base + ".", ext, '/');
  }

  // ------------------------------------------------------------ public URLs

  /** The object store's `/storage/v1/object/public/{bucket}/` URL segment. */
  function PublicMarker(bucket: string): string
  {
    "/storage/v1/object/public/" + bucket + "/"
  }

  /** `getPublicUrl(path)` of the object store, for a project whose base URL
      is `base`. */
  function PublicUrl(base: string, bucket: string, path: string): string
  {
    base + PublicMarker(bucket) + path
  }

  /** A character `encodeURI` leaves as it is. */
  predicate UriUnreserved(c: char)
  {
    'a' <= c <= 'z' || 'A' <= c <= 'Z' || '0' <= c <= '9' || c in ";,/?:@&=+$-_.!~*'()#"
  }

  /** `encodeURI` leaves `s` unchanged. */
  predicate NeedsNoEncoding(s: string)
  {
    forall i :: 0 <= i < |s| ==> UriUnreserved(s[i])
  }

  /** A PDF key is made of digits, `/`, `-` and sanitised characters only,
      so the store's percent-encoding of its public URL changes nothing in
      it. */
  lemma PdfKeyNeedsNoEncoding(timestamp: nat, fileName: string)
    ensures NeedsNoEncoding(PdfKey(timestamp, fileName))
  {
    var ts := NatToString(timestamp);
    var name := Sanitize(fileName);
    SanitizeSafe(fileName);
    assert NeedsNoEncoding(ts);
    assert NeedsNoEncoding(name);
    assert NeedsNoEncoding("pdfs/" + ts + "-");
  }

  /** A thumbnail's extension is not sanitised, so its key can hold a
      character the encoding changes: a manual upload named `a.j g` gets a
      key ending in `.j g`, whose public URL the store writes with `%20`. */
  lemma ThumbnailKeyMayNeedEncoding(timestamp: nat)
    ensures !NeedsNoEncoding(ThumbnailKey(timestamp, FileBody("a.j g"), None))
  {
    assert LastSeparatorEnd("a.j g", '.', 5) == 2;
    assert AfterLast("a.j g", '.') == "j g";
    var key := ThumbnailKey(timestamp, FileBody("a.j g"), None);
    assert key[|key| - 2] == ' ';
  }

  /** `getStoragePathFromUrl`: the text after the first occurrence of the
      bucket's public marker, or `None` when the marker does not occur. */
  function GetStoragePathFromUrl(url: string, bucket: string): (r: Option<string>)
    ensures r.None? <==> forall j :: 0 <= j <= |url| ==> !MatchesAt(url, PublicMarker(bucket), j)
    ensures r.Some? ==> exists i: nat :: FirstMatchBefore(url, PublicMarker(bucket), i, r.value)
  {
    var marker := PublicMarker(bucket);
    match IndexOf(url, marker)
    case None => None
    case Some(i) =>
      var path := url[i + |marker|..];
      assert url == url[..i] + marker + path;
      assert FirstMatchBefore(url, marker, i, path);
      Some(path)
  }

  /** `url` is `url[..i] + marker + path`, and `i` is the first match. */
  predicate FirstMatchBefore(url: string, marker: string, i: nat, path: string)
  {
    i <= |url| && url == url[..i] + marker + path &&
    forall j :: 0 <= j < i ==> !MatchesAt(url, marker, j)
  }

  /** URL to path round trip: a public URL gives back its storage path as long
      as the marker does not already occur across the base URL. */
  lemma {:induction false} PathFromPublicUrl(base: string, bucket: string, path: string)
    requires forall j :: 0 <= j < |base| ==> !MatchesAt(base + PublicMarker(bucket), PublicMarker(bucket), j)
    ensures GetStoragePathFromUrl(PublicUrl(base, bucket, path), bucket) == Some(path)
  {
    var m := PublicMarker(bucket);
    var u := base + m;
    var url := PublicUrl(base, bucket, path);
    assert url == u + path;
    assert MatchesAt(url, m, |base|) by {
      assert url[|base|..|base| + |m|] == m;
    }
    forall j | 0 <= j < |base| ensures !MatchesAt(url, m, j) {
      assert !MatchesAt(u, m, j);
      assert u[j..j + |m|] == url[j..j + |m|];
    }
    var r := IndexOf(url, m);
    assert r == Some(|base|);
    assert url[|base| + |m|..] == path;
  }

  /** The condition of `PathFromPublicUrl` holds for every base URL that does
      not contain `/storage`, such as `https://<project>.supabase.co`. */
  lemma BaseWithoutStorageSegment(base: string, bucket: string)
    requires !Contains(base, "/storage")
    ensures forall j :: 0 <= j < |base| ==> !MatchesAt(base + PublicMarker(bucket), PublicMarker(bucket), j)
  {
    var m := PublicMarker(bucket);
    var u := base + m;
    assert m[..8] == "/storage";
    forall j | 0 <= j < |base| ensures !MatchesAt(u, m, j) {
      if j + 8 <= |base| {
        assert !MatchesAt(base, "/storage", j);
        WindowInBase(base, m, j);
      } else {
        var d := |base| - j;
        assert u[j..j + |m|][d] == u[|base|] == m[0] == '/';
        assert m[d] == "/storage"[d] != '/';
      }
    }
  }

  /** The first eight characters of a window that starts eight or more
      characters before the end of `base` lie inside `base`. */
  lemma WindowInBase(base: string, m: string, j: nat)
    requires j + 8 <= |base| && 8 <= |m|
    ensures (base + m)[j..j + |m|][..8] == base[j..j + 8]
  {
    var u := base + m;
    assert u[j..j + |m|][..8] == u[j..j + 8];
    assert u[..|base|] == base;
    assert u[j..j + 8] == u[..|base|][j..j + 8];
  }

  // ---------------------------------------------------------------- uploads

  /** `uploadPDF`: the upload's error message becomes `Failed to upload PDF:
      …` and nothing is returned; otherwise the path that was uploaded to and
      its public URL. */
  function UploadPdf(file: FileInfo, timestamp: nat, uploadError: Option<string>, base: string)
    : (r: Result<Stored>)
    ensures r.Err? <==> uploadError.Some?
    ensures r.Err? ==> r.message == "Failed to upload PDF: " + uploadError.value
    ensures r.Ok? ==> r.value.storagePath == PdfKey(timestamp, file.name)
    ensures r.Ok? && !Contains(base, "/storage") ==>
      GetStoragePathFromUrl(r.value.publicUrl, PdfBucket) == Some(r.value.storagePath)
    ensures r.Ok? ==> r.value.publicUrl == PublicUrl(base, PdfBucket, r.value.storagePath)
  {
    match uploadError
    case Some(message) => Err("Failed to upload PDF: " + message)
    case None =>
      var path := PdfKey(timestamp, file.name);
      PathRoundTripForProject(base, PdfBucket, path);
      Ok(Stored(PublicUrl(base, PdfBucket, path), path))
  }

  /** `uploadThumbnail`, with the same error and result shape in the
      thumbnail bucket. */
  function UploadThumbnail(body: Body, originalFileName: Option<string>, timestamp: nat,
                           uploadError: Option<string>, base: string): (r: Result<Stored>)
    ensures r.Err? <==> uploadError.Some?
    ensures r.Err? ==> r.message == "Failed to upload thumbnail: " + uploadError.value
    ensures r.Ok? ==> r.value.storagePath == ThumbnailKey(timestamp, body, originalFileName)
    ensures r.Ok? ==> r.value.publicUrl == PublicUrl(base, ThumbnailBucket, r.value.storagePath)
  {
    match uploadError
    case Some(message) => Err("Failed to upload thumbnail: " + message)
    case None =>
      var path := ThumbnailKey(timestamp, body, originalFileName);
      Ok(Stored(PublicUrl(base, ThumbnailBucket, path), path))
  }

  /** A public URL built on a base without a `/storage` segment gives back
      the path it was built from. */
  lemma PathRoundTripForProject(base: string, bucket: string, path: string)
    ensures !Contains(base, "/storage") ==>
      GetStoragePathFromUrl(PublicUrl(base, bucket, path), bucket) == Some(path)
  {
    if !Contains(base, "/storage") {
      BaseWithoutStorageSegment(base, bucket);
      PathFromPublicUrl(base, bucket, path);
    }
  }

  // -------------------------------------------------------------- deletion

  /** `deleteFile`: the store's error becomes `Failed to delete file from
      {bucket}: …`. */
  function DeleteFile(bucket: string, path: string, removeError: Option<string>): (r: Result<()>)
    ensures r.Err? <==> removeError.Some?
    ensures r.Err? ==> r.message == "Failed to delete file from " + bucket + ": " + removeError.value
  {
    match removeError
    case Some(message) => Err("Failed to delete file from " + bucket + ": " + message)
    case None => Ok(())
  }

  /** JavaScript truthiness of the optional thumbnail path. */
  predicate HasThumbnail(thumbnailPath: Option<string>)
  {
    thumbnailPath.Some? && thumbnailPath.value != ""
  }

  /** The `errors` array `deletePresentationFiles` collects, in push order. */
  function DeleteErrors(pdfPath: string, thumbnailPath: Option<string>,
                        pdfRemoveError: Option<string>, thumbnailRemoveError: Option<string>)
    : (errors: seq<string>)
    ensures |errors| <= 2
    ensures errors == [] <==> pdfRemoveError.None? && (!HasThumbnail(thumbnailPath) || thumbnailRemoveError.None?)
    ensures |errors| == (if pdfRemoveError.Some? then 1 else 0)
                      + (if HasThumbnail(thumbnailPath) && thumbnailRemoveError.Some? then 1 else 0)
    ensures pdfRemoveError.Some? ==> errors[0] == "PDF: " + DeleteFile(PdfBucket, pdfPath, pdfRemoveError).message
    ensures HasThumbnail(thumbnailPath) && thumbnailRemoveError.Some? ==>
      errors[|errors| - 1] == "Thumbnail: " + DeleteFile(ThumbnailBucket, thumbnailPath.value, thumbnailRemoveError).message
  {
    (match DeleteFile(PdfBucket, pdfPath, pdfRemoveError)
     case Err(m) => ["PDF: " + m]
     case Ok(_) => [])
    + (if HasThumbnail(thumbnailPath) then
         match DeleteFile(ThumbnailBucket, thumbnailPath.value, thumbnailRemoveError)
         case Err(m) => ["Thumbnail: " + m]
         case Ok(_) => []
       else [])
  }

  /** `deletePresentationFiles`: always attempts the PDF removal, attempts the
      thumbnail removal exactly when a thumbnail path is given whatever the
      PDF outcome, and fails iff at least one removal failed, with the PDF's
      error listed before the thumbnail's. */
  method DeletePresentationFiles(pdfPath: string, thumbnailPath: Option<string>,
                                 pdfRemoveError: Option<string>, thumbnailRemoveError: Option<string>)
    returns (outcome: Result<()>, attempted: seq<Removal>)
    ensures |attempted| == (if HasThumbnail(thumbnailPath) then 2 else 1)
    ensures attempted[0] == Removal(PdfBucket, pdfPath)
    ensures HasThumbnail(thumbnailPath) ==> attempted[1] == Removal(ThumbnailBucket, thumbnailPath.value)
    ensures outcome.Err? <==> pdfRemoveError.Some? || (HasThumbnail(thumbnailPath) && thumbnailRemoveError.Some?)
    ensures outcome.Err? ==>
      outcome.message == "Failed to delete some files: "
        + Join(DeleteErrors(pdfPath, thumbnailPath, pdfRemoveError, thumbnailRemoveError), ", ")
  {
    var errors: seq<string> := [];
    attempted := [Removal(PdfBucket, pdfPath)];
    var pdfResult := DeleteFile(PdfBucket, pdfPath, pdfRemoveError);
    if pdfResult.Err? {
      errors := errors + ["PDF: " + pdfResult.message];
    }
    if HasThumbnail(thumbnailPath) {
      attempted := attempted + [Removal(ThumbnailBucket, thumbnailPath.value)];
      var thumbnailResult := DeleteFile(ThumbnailBucket, thumbnailPath.value, thumbnailRemoveError);
      if thumbnailResult.Err? {
        errors := errors + ["Thumbnail: " + thumbnailResult.message];
      }
    }
    if |errors| > 0 {
      outcome := Err("Failed to delete some files: " + Join(errors, ", "));
    } else {
      outcome := Ok(());
    }
  }

  // ------------------------------------------------------------ validation

  /** `validatePDFFile`: the type is checked before the size; valid exactly
      for a PDF of at most 50 MB, and a valid result carries no error. */
  function ValidatePdfFile(file: FileInfo): (r: Validation)
    ensures r.valid <==> file.mimeType == "application/pdf" && file.size <= PdfMaxSize
    ensures r.valid <==> r.error.None?
    ensures file.mimeType != "application/pdf" ==> r.error == Some("File must be a PDF")
    ensures file.mimeType == "application/pdf" && file.size > PdfMaxSize ==>
      r.error == Some("PDF file must be less than 50MB")
  {
    if file.mimeType != "application/pdf" then Validation(false, Some("File must be a PDF"))
    else if file.size > PdfMaxSize then Validation(false, Some("PDF file must be less than 50MB"))
    else Validation(true, None)
  }

  /** `validateThumbnailFile`: PNG, JPEG (either spelling) or WebP of at most
      5 MB; the type is checked before the size. */
  function ValidateThumbnailFile(file: FileInfo): (r: Validation)
    ensures r.valid <==> file.mimeType in ThumbnailTypes && file.size <= ThumbnailMaxSize
    ensures r.valid <==> r.error.None?
    ensures file.mimeType !in ThumbnailTypes ==> r.error == Some("Thumbnail must be PNG, JPEG, or WebP")
    ensures file.mimeType in ThumbnailTypes && file.size > ThumbnailMaxSize ==>
      r.error == Some("Thumbnail must be less than 5MB")
  {
    if file.mimeType !in ThumbnailTypes then
      Validation(false, Some("Thumbnail must be PNG, JPEG, or WebP"))
    else if file.size > ThumbnailMaxSize then
      Validation(false, Some("Thumbnail must be less than 5MB"))
    else Validation(true, None)
  }
}
