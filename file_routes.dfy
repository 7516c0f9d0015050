/**
 * The challenge-file endpoints: the extension whitelist and the filename
 * check, the stored-name shape of an upload, the original-name lookup of a
 * download and the removal of attachment references on delete. The disk,
 * `secure_filename`, the uuid and the file size are parameters or left
 * out.
 */
module FileRoutes {
  import opened Wrappers
  import opened Json
  import opened Strings
  import opened ChallengeModel
  import Sequences

  /** `ALLOWED_EXTENSIONS`, in the groups of its source lines. */
  const Documents: set<string> := {"txt", "pdf", "doc", "docx", "xls", "xlsx", "ppt", "pptx"}
  const Archives: set<string> := {"zip", "rar", "7z", "tar", "gz", "bz2"}
  const Images: set<string> := {"jpg", "jpeg", "png", "gif", "bmp", "svg"}
  const Media: set<string> := {"mp3", "mp4", "avi", "mov", "wav"}
  const Binaries: set<string> := {"exe", "dll", "bin", "iso", "img"}
  const WebText: set<string> := {"log", "csv", "json", "xml", "html", "css", "js"}
  const Captures: set<string> := {"pcap", "cap", "pcapng", "wireshark"}
  const Databases: set<string> := {"sql", "db", "sqlite", "sqlite3"}
  const AllowedExtensions: set<string> :=
    Documents + Archives + Images + Media + Binaries + WebText + Captures + Databases

  /** The position of the last '.', if any. */
  function LastDot(s: string): (r: Option<nat>)
    ensures r.Some? ==> r.value < |s| && s[r.value] == '.' && forall k :: r.value < k < |s| ==> s[k] != '.'
    ensures r.None? ==> forall k :: 0 <= k < |s| ==> s[k] != '.'
  {
    if s == [] then None
    else if s[|s| - 1] == '.' then Some(|s| - 1)
    else LastDot(s[..|s| - 1])
  }

  /** `s.rsplit('.', 1)[1]`: the text after the last '.'; `None` stands for the IndexError without one. */
  function Extension(s: string): (r: Option<string>)
    ensures r.Some? <==> '.' in s
    ensures r.Some? ==> '.' !in r.value && EndsWith(s, "." + r.value)
  {
    var k := LastDot(s);
    if k.None? then None
    else
      var ext := s[k.value + 1..];
      assert s[|s| - |"." + ext|..] == "." + ext;
      Some(ext)
  }

  /** `allowed_file`: a '.' and a whitelisted lower-cased extension after the last one. */
  predicate AllowedFile(name: string)
  {
    '.' in name && Lower(Extension(name).value) in AllowedExtensions
  }

  /** A name ending in '.' has the empty extension, which is not whitelisted. */
  lemma TrailingDotRejected(name: string)
    requires name != [] && name[|name| - 1] == '.'
    ensures !AllowedFile(name)
  {
    assert LastDot(name) == Some(|name| - 1);
    assert Extension(name).value == [];
    assert Lower([]) == [];
    assert "" !in Documents && "" !in Archives && "" !in Images && "" !in Media;
    assert "" !in Binaries && "" !in WebText && "" !in Captures && "" !in Databases;
  }

  /** The extension check ignores case: an upper-case PDF is accepted. */
  lemma UpperCaseAllowed()
    ensures AllowedFile("notes.PDF")
  {
    assert LastDot("notes.PDF") == Some(5) by {
      assert "notes.PDF"[..8] == "notes.PD" && "notes.PD"[..7] == "notes.P" && "notes.P"[..6] == "notes.";
    }
    assert Extension("notes.PDF") == Some("PDF");
    assert Lower("PDF") == "pdf";
    assert "pdf" in Documents;
  }

  /** The extension check ignores case: a mixed-case archive is accepted. */
  lemma MixedCaseAllowed()
    ensures AllowedFile("a.Zip")
  {
    assert LastDot("a.Zip") == Some(1) by {
      assert "a.Zip"[..4] == "a.Zi" && "a.Zi"[..3] == "a.Z" && "a.Z"[..2] == "a.";
    }
    assert Extension("a.Zip") == Some("Zip");
    assert Lower("Zip") == "zip";
    assert "zip" in Archives;
  }

  /** `name.replace('.', '').replace('-', '').replace('_', '')`. */
  function DropSeparators(name: string): (r: string)
    ensures forall c :: c in r <==> c in name && c !in {'.', '-', '_'}
  {
    if name == [] then []
    else (if name[0] in {'.', '-', '_'} then [] else [name[0]]) + DropSeparators(name[1..])
  }

  /** The filename check of download and delete: `isalnum()` of what is left, so it must be non-empty. */
  predicate SafeFilename(name: string)
  {
    var rest := DropSeparators(name);
    |rest| > 0 && AllChars(rest, IsAlnum)
  }

  /** A name is accepted exactly when it has an alphanumeric character and every character is one or a separator. */
  lemma SafeFilenameChars(name: string)
    ensures SafeFilename(name) <==>
      (exists c :: c in name && IsAlnum(c)) && forall c :: c in name ==> IsAlnum(c) || c in {'.', '-', '_'}
  {
    var rest := DropSeparators(name);
    if SafeFilename(name) {
      assert rest[0] in rest;
      forall c | c in name ensures IsAlnum(c) || c in {'.', '-', '_'} {
        if c !in {'.', '-', '_'} {
          assert c in rest;
          var k :| 0 <= k < |rest| && rest[k] == c;
        }
      }
    }
    if (exists c :: c in name && IsAlnum(c)) && forall c :: c in name ==> IsAlnum(c) || c in {'.', '-', '_'} {
      var c :| c in name && IsAlnum(c);
      assert c in rest;
      forall k | 0 <= k < |rest| ensures IsAlnum(rest[k]) {
        assert rest[k] in rest;
      }
    }
  }

  /** A path separator or a space is never accepted, so no name leaves the upload directory. */
  lemma NoPathSeparators(name: string)
    requires '/' in name || ' ' in name
    ensures !SafeFilename(name)
  {
    SafeFilenameChars(name);
  }

  datatype UploadOutcome = UploadRejected(response: Response) | Stored(originalName: string, storedName: string)

  /**
   * `upload_file` up to the save: the admin gate, the file part, an empty
   * name, the whitelist; then the stored name is `<hex>.<extension>` with
   * the extension taken, lower-cased, from `secure(filename)`, which raises
   * when no '.' is left in it.
   */
  function Upload(isAdmin: bool, hasFilePart: bool, filename: string, secure: string -> string, hex: string): (o: UploadOutcome)
    ensures o.Stored? ==> isAdmin && hasFilePart && filename != "" && AllowedFile(filename)
    ensures o.Stored? ==> o.originalName == secure(filename) && StartsWith(o.storedName, hex + ".")
    ensures o.Stored? ==>
      var ext := o.storedName[|hex| + 1..];
      '.' !in ext && Lower(ext) == ext && EndsWith(Lower(o.originalName), "." + ext)
  {
    if !isAdmin then UploadRejected(Response(403, "Admin privileges required"))
    else if !hasFilePart then UploadRejected(Response(400, "No file provided"))
    else if filename == "" then UploadRejected(Response(400, "No file selected"))
    else if !AllowedFile(filename) then UploadRejected(Response(400, "File type not allowed"))
    else
      var original := secure(filename);
      var ext := Extension(original);
      if ext.None? then UploadRejected(Response(500, "Failed to upload file"))
      else
        var lowered := Lower(ext.value);
        var stored := hex + "." + lowered;
        LowerIdempotent(ext.value);
        LowerNoDot(ext.value);
        LowerEndsWith(original, "." + ext.value);
        assert Lower("." + ext.value) == "." + lowered;
        assert stored[..|hex + "."|] == hex + "." && stored[|hex| + 1..] == lowered;
        Stored(original, stored)
  }

  /**
   * The replies of `upload_file` in order: 403 for anyone but an
   * administrator, 400 without a file part, with an empty name or with an
   * extension off the whitelist, and 500 when the secured name has lost
   * every '.'; an administrator's allowed file is stored otherwise.
   */
  lemma UploadReplies(isAdmin: bool, hasFilePart: bool, filename: string, secure: string -> string, hex: string)
    ensures Upload(isAdmin, hasFilePart, filename, secure, hex).Stored? <==>
      isAdmin && hasFilePart && filename != "" && AllowedFile(filename) && '.' in secure(filename)
    ensures !isAdmin ==> Upload(isAdmin, hasFilePart, filename, secure, hex) == UploadRejected(Response(403, "Admin privileges required"))
    ensures isAdmin && !hasFilePart ==> Upload(isAdmin, hasFilePart, filename, secure, hex) == UploadRejected(Response(400, "No file provided"))
    ensures isAdmin && hasFilePart && !AllowedFile(filename) ==>
      Upload(isAdmin, hasFilePart, filename, secure, hex).response.status == 400
    ensures isAdmin && hasFilePart && AllowedFile(filename) && '.' !in secure(filename) ==>
      Upload(isAdmin, hasFilePart, filename, secure, hex) == UploadRejected(Response(500, "Failed to upload file"))
  {
  }

  /** Lower-casing keeps a suffix a suffix. */
  lemma LowerEndsWith(s: string, p: string)
    requires EndsWith(s, p)
    ensures EndsWith(Lower(s), Lower(p))
  {
    assert forall k :: 0 <= k < |p| ==> Lower(s)[|s| - |p|..][k] == Lower(p)[k] by {
      forall k | 0 <= k < |p| ensures Lower(s)[|s| - |p|..][k] == Lower(p)[k] {
        assert s[|s| - |p| + k] == p[k];
      }
    }
  }

  lemma LowerNoDot(s: string)
    requires '.' !in s
    ensures '.' !in Lower(s)
  {
    forall k | 0 <= k < |s| ensures Lower(s)[k] != '.' {
      assert s[k] != '.';
    }
  }

  /** What one challenge's attachment list says about a stored filename. */
  datatype Match = Found(name: Value) | NotHere | Raised

  /** The attachment is a dict whose `filename` is the stored filename. */
  predicate Names(att: Value, filename: string)
  {
    att.JObject? && GetOr(att.fields, "filename", JNull) == JStr(filename)
  }

  /** `file_attachment.get('name', filename)`. */
  function ShownName(att: Value, filename: string): Value
    requires att.JObject?
  {
    GetOr(att.fields, "name", JStr(filename))
  }

  /** The inner loop: the first attachment with that `filename` gives its `name` (default the filename); `.get` on a non-dict raises. */
  function FirstMatch(atts: seq<Value>, filename: string): (m: Match)
    ensures m.Found? ==> exists k :: 0 <= k < |atts| && Names(atts[k], filename) && m.name == ShownName(atts[k], filename)
    ensures m.NotHere? ==> forall k :: 0 <= k < |atts| ==> atts[k].JObject? && !Names(atts[k], filename)
    ensures m.Raised? ==> exists k :: 0 <= k < |atts| && !atts[k].JObject?
  {
    if atts == [] then NotHere
    else if !atts[0].JObject? then Raised
    else if Names(atts[0], filename) then Found(ShownName(atts[0], filename))
    else
      var m := FirstMatch(atts[1..], filename);
      assert forall k :: 0 < k < |atts| ==> atts[k] == atts[1..][k - 1];
      m
  }

  /** A challenge's `file_attachments` column: skipped when falsy; iterating anything but a list of dicts raises. */
  function ColumnMatch(col: Value, filename: string): Match
  {
    if !Truthy(col) then NotHere
    else if !col.JArray? then Raised
    else FirstMatch(col.items, filename)
  }

  /**
   * The download name after the outer loop over all challenges: the
   * `break` leaves only the inner loop, so the last challenge with a match
   * decides; `None` when a lookup raised.
   */
  function OriginalName(cols: seq<Value>, filename: string): Option<Value>
  {
    if cols == [] then Some(JStr(filename))
    else
      var before := OriginalName(cols[..|cols| - 1], filename);
      var m := ColumnMatch(cols[|cols| - 1], filename);
      if before.None? || m.Raised? then None
      else if m.Found? then Some(m.name)
      else before
  }

  /** The lookup loop of `download_file`. */
  method LookupOriginalName(cols: seq<Value>, filename: string) returns (name: Option<Value>)
    ensures name == OriginalName(cols, filename)
  {
    var original := JStr(filename);
    var i := 0;
    while i < |cols|
      invariant 0 <= i <= |cols|
      invariant OriginalName(cols[..i], filename) == Some(original)
    {
      assert cols[..i + 1][..i] == cols[..i];
      var m := ColumnMatch(cols[i], filename);
      if m.Raised? {
        NoneSticks(cols, filename, i + 1);
        return None;
      }
      if m.Found? {
        original := m.name;
      }
      i := i + 1;
    }
    assert cols[..i] == cols;
    name := Some(original);
  }

  /** Once a lookup raised, the whole loop raises. */
  lemma {:induction false} NoneSticks(cols: seq<Value>, filename: string, k: nat)
    requires k <= |cols| && OriginalName(cols[..k], filename).None?
    ensures OriginalName(cols, filename).None?
    decreases |cols| - k
  {
    if k < |cols| {
      assert cols[..k + 1][..k] == cols[..k];
      NoneSticks(cols, filename, k + 1);
    } else {
      assert cols[..k] == cols;
    }
  }

  /** With no match anywhere the stored filename is the download name. */
  lemma {:induction false} NoMatchKeepsFilename(cols: seq<Value>, filename: string)
    requires forall i :: 0 <= i < |cols| ==> ColumnMatch(cols[i], filename).NotHere?
    ensures OriginalName(cols, filename) == Some(JStr(filename))
  {
    if cols != [] {
      NoMatchKeepsFilename(cols[..|cols| - 1], filename);
    }
  }

  /** The last challenge with a match decides, whatever earlier challenges say. */
  lemma {:induction false} LastMatchWins(cols: seq<Value>, filename: string, k: nat)
    requires k < |cols| && ColumnMatch(cols[k], filename).Found?
    requires OriginalName(cols[..k], filename).Some?
    requires forall i :: k < i < |cols| ==> ColumnMatch(cols[i], filename).NotHere?
    ensures OriginalName(cols, filename) == Some(ColumnMatch(cols[k], filename).name)
    decreases |cols|
  {
    if k < |cols| - 1 {
      var init := cols[..|cols| - 1];
      assert init[..k] == cols[..k];
      LastMatchWins(init, filename, k);
    } else {
      assert cols[..|cols| - 1] == cols[..k];
    }
  }

  /** Every attachment is a dict, so `.get` can be called on each. */
  predicate AllDicts(atts: seq<Value>)
  {
    forall k :: 0 <= k < |atts| ==> atts[k].JObject?
  }

  /** The entries whose `filename` differs, in order. */
  function Others(atts: seq<Value>, filename: string): (r: seq<Value>)
    ensures Sequences.IsSubsequence(r, atts)
    ensures forall v :: v in r ==> v in atts && !Names(v, filename)
  {
    if atts == [] then []
    else
      var init := atts[..|atts| - 1];
      var last := atts[|atts| - 1];
      var before := Others(init, filename);
      assert atts == init + [last];
      if !Names(last, filename) then
        Sequences.SubsequenceAppendBoth(before, init, last);
        before + [last]
      else
        Sequences.SubsequenceExtend(before, init, last);
        before
  }

  /**
   * The attachments `delete_file` keeps: those whose `filename` differs;
   * `None` when one is not a dict (the `.get` of the comprehension raises).
   */
  function Kept(atts: seq<Value>, filename: string): (r: Option<seq<Value>>)
    ensures r.Some? ==> Sequences.IsSubsequence(r.value, atts) && |r.value| <= |atts|
    ensures r.Some? ==> forall k :: 0 <= k < |r.value| ==> r.value[k].JObject? && !Names(r.value[k], filename)
    ensures r.Some? <==> AllDicts(atts)
  {
    if AllDicts(atts) then
      var kept := Others(atts, filename);
      Sequences.SubsequenceNotLonger(kept, atts);
      assert forall k :: 0 <= k < |kept| ==> kept[k] in kept;
      Some(kept)
    else None
  }

  /** Keeping twice keeps the same list: a second delete of the file finds nothing to remove. */
  lemma KeptIdempotent(atts: seq<Value>, filename: string)
    requires Kept(atts, filename).Some?
    ensures Kept(Kept(atts, filename).value, filename) == Kept(atts, filename)
  {
    var once := Kept(atts, filename).value;
    KeptAllKept(once, filename);
  }

  /** A list none of whose entries name the file is kept whole. */
  lemma KeptAllKept(atts: seq<Value>, filename: string)
    requires forall k :: 0 <= k < |atts| ==> atts[k].JObject? && !Names(atts[k], filename)
    ensures Kept(atts, filename) == Some(atts)
  {
    OthersAllKept(atts, filename);
  }

  lemma {:induction false} OthersAllKept(atts: seq<Value>, filename: string)
    requires forall k :: 0 <= k < |atts| ==> !Names(atts[k], filename)
    ensures Others(atts, filename) == atts
  {
    if atts != [] {
      OthersAllKept(atts[..|atts| - 1], filename);
      assert atts[..|atts| - 1] + [atts[|atts| - 1]] == atts;
    }
  }

  /** The download route: the login, the filename check, the file on disk, then the lookup. */
  datatype DownloadOutcome = DownloadRejected(response: Response) | Send(filename: string, downloadName: Value)

  function Download(userExists: bool, filename: string, onDisk: bool, cols: seq<Value>): (o: DownloadOutcome)
    ensures o.Send? <==> userExists && SafeFilename(filename) && onDisk && OriginalName(cols, filename).Some?
    ensures o.Send? ==> o.filename == filename && o.downloadName == OriginalName(cols, filename).value
  {
    if !userExists then DownloadRejected(Response(401, "Authentication required"))
    else if !SafeFilename(filename) then DownloadRejected(Response(400, "Invalid filename"))
    else if !onDisk then DownloadRejected(Response(404, "File not found"))
    else
      var name := OriginalName(cols, filename);
      if name.None? then DownloadRejected(Response(500, "Failed to download file"))
      else Send(filename, name.value)
  }

  /** What the pruning of `delete_file` leaves in one `file_attachments` column; `None` when it raises. */
  function Pruned(col: Value, filename: string): Option<Value>
  {
    if !Truthy(col) then Some(col)
    else if !col.JArray? then None
    else
      var kept := Kept(col.items, filename);
      if kept.None? then None
      else if |kept.value| != |col.items| then Some(JArray(kept.value))
      else Some(col)
  }

  /** The pruned column is always the kept list: the write skipped by the length guard would have stored the same list. */
  lemma PrunedIsKept(col: Value, filename: string)
    requires Truthy(col) && col.JArray? && Kept(col.items, filename).Some?
    ensures Pruned(col, filename) == Some(JArray(Kept(col.items, filename).value))
  {
    var kept := Kept(col.items, filename).value;
    if |kept| == |col.items| {
      Sequences.SameLengthSubsequence(kept, col.items);
    }
  }

  /** After pruning no attachment names the deleted file, and pruning again changes nothing. */
  lemma PrunedRemovesFile(col: Value, filename: string)
    requires Pruned(col, filename).Some?
    ensures var p := Pruned(col, filename).value;
      Pruned(p, filename) == Some(p)
      && (Truthy(p) ==> p.JArray? && forall k :: 0 <= k < |p.items| ==>
            p.items[k].JObject? && !Names(p.items[k], filename))
  {
    if Truthy(col) {
      PrunedIsKept(col, filename);
      var p := Pruned(col, filename).value;
      if Truthy(p) {
        KeptIdempotent(col.items, filename);
      }
    }
  }

  /** The index of the first column whose pruning raises, or the number of columns. */
  function FirstFailure(cols: seq<Value>, filename: string): (k: nat)
    ensures k <= |cols|
    ensures forall j :: 0 <= j < k ==> Pruned(cols[j], filename).Some?
    ensures k < |cols| ==> Pruned(cols[k], filename).None?
  {
    if cols == [] then 0
    else if Pruned(cols[0], filename).None? then 0
    else
      var k := FirstFailure(cols[1..], filename);
      assert forall j :: 1 <= j < k + 1 ==> cols[j] == cols[1..][j - 1];
      k + 1
  }

  /** The `file_attachments` column of every challenge, in query order. */
  function AttachmentColumns(cs: seq<Challenge>): (r: seq<Value>)
    reads set c | c in cs
    ensures |r| == |cs| && forall j :: 0 <= j < |cs| ==> r[j] == cs[j].Column("file_attachments")
  {
    if cs == [] then [] else [cs[0].Column("file_attachments")] + AttachmentColumns(cs[1..])
  }

  /**
   * `delete_file`: the admin gate, the filename check and the file on disk;
   * then every challenge's attachments lose the entries naming the file,
   * each changed row committed before the next is read. A column that
   * raises ends the route with 500, after the earlier rows were written.
   */
  method DeleteFile(isAdmin: bool, filename: string, onDisk: bool, challenges: seq<Challenge>) returns (resp: Response)
    requires Sequences.NoDuplicates(challenges)
    modifies set c | c in challenges :: c`columns
    ensures !isAdmin ==> resp == Response(403, "Admin privileges required")
    ensures isAdmin && !SafeFilename(filename) ==> resp == Response(400, "Invalid filename")
    ensures isAdmin && SafeFilename(filename) && !onDisk ==> resp == Response(404, "File not found")
    ensures var before := old(AttachmentColumns(challenges));
      var stop := FirstFailure(before, filename);
      var pruning := isAdmin && SafeFilename(filename) && onDisk;
      (pruning ==> resp == if stop == |before| then Response(200, "File deleted successfully") else Response(500, "Failed to delete file"))
      && (forall j :: 0 <= j < |challenges| ==>
            challenges[j].Column("file_attachments") == if pruning && j < stop then Pruned(before[j], filename).value else before[j])
    ensures forall c, n :: c in challenges && n != "file_attachments" ==> c.Column(n) == old(c.Column(n))
  {
    if !isAdmin {
      return Response(403, "Admin privileges required");
    }
    if !SafeFilename(filename) {
      return Response(400, "Invalid filename");
    }
    if !onDisk {
      return Response(404, "File not found");
    }
    var ok := PruneAll(challenges, filename);
    resp := if ok then Response(200, "File deleted successfully") else Response(500, "Failed to delete file");
  }

  /** The pruning loop over every challenge; `false` when a column raised. */
  method PruneAll(challenges: seq<Challenge>, filename: string) returns (ok: bool)
    requires Sequences.NoDuplicates(challenges)
    modifies set c | c in challenges :: c`columns
    ensures var before := old(AttachmentColumns(challenges));
      var stop := FirstFailure(before, filename);
      (ok <==> stop == |before|)
      && forall j :: 0 <= j < |challenges| ==>
           challenges[j].Column("file_attachments") == if j < stop then Pruned(before[j], filename).value else before[j]
    ensures forall c, n :: c in challenges && n != "file_attachments" ==> c.Column(n) == old(c.Column(n))
  {
    ghost var before := AttachmentColumns(challenges);
    ghost var stop := FirstFailure(before, filename);
    var i := 0;
    while i < |challenges|
      invariant 0 <= i <= |challenges| && i <= stop
      invariant forall j :: 0 <= j < |challenges| ==>
        challenges[j].Column("file_attachments") == if j < i then Pruned(before[j], filename).value else before[j]
      invariant forall c, n :: c in challenges && n != "file_attachments" ==> c.Column(n) == old(c.Column(n))
    {
      var c := challenges[i];
      assert c in challenges;
      ok := PruneAttachments(c, filename);
      if !ok {
        return;
      }
      assert forall j :: 0 <= j < |challenges| && j != i ==> challenges[j] != c;
      i := i + 1;
    }
    ok := true;
  }

  /** One challenge of the pruning loop: `false` when its column raises, the row then left as it was. */
  method PruneAttachments(c: Challenge, filename: string) returns (ok: bool)
    modifies c`columns
    ensures ok == old(Pruned(c.Column("file_attachments"), filename)).Some?
    ensures c.Column("file_attachments") ==
      if ok then old(Pruned(c.Column("file_attachments"), filename)).value else old(c.Column("file_attachments"))
    ensures forall n :: n != "file_attachments" ==> c.Column(n) == old(c.Column(n))
  {
    var col := c.Column("file_attachments");
    if !Truthy(col) {
      return true;
    }
    if !col.JArray? {
      return false;
    }
    var kept := FilterAttachments(col.items, filename);
    if kept.None? {
      return false;
    }
    if |kept.value| != |col.items| {
      c.SetColumn("file_attachments", JArray(kept.value));
    }
    return true;
  }

  /** The inner loop of the pruning: the entries whose `filename` differs, in order. */
  method FilterAttachments(atts: seq<Value>, filename: string) returns (r: Option<seq<Value>>)
    ensures r == Kept(atts, filename)
  {
    var updated := [];
    var i := 0;
    while i < |atts|
      invariant 0 <= i <= |atts|
      invariant AllDicts(atts[..i]) && Others(atts[..i], filename) == updated
    {
      FilterStep(atts, filename, i);
      if !atts[i].JObject? {
        return None;
      }
      if !Names(atts[i], filename) {
        updated := updated + [atts[i]];
      }
      i := i + 1;
    }
    assert atts[..i] == atts;
    r := Some(updated);
  }

  /** One more entry: a non-dict spoils the whole list, a dict extends the prefix, and is kept when it names another file. */
  lemma FilterStep(atts: seq<Value>, filename: string, i: nat)
    requires i < |atts| && AllDicts(atts[..i])
    ensures !atts[i].JObject? ==> !AllDicts(atts)
    ensures atts[i].JObject? ==> AllDicts(atts[..i + 1])
    ensures Others(atts[..i + 1], filename) ==
      Others(atts[..i], filename) + (if Names(atts[i], filename) then [] else [atts[i]])
  {
    var next := atts[..i + 1];
    assert next[..i] == atts[..i];
    assert next[i] == atts[i];
    if atts[i].JObject? {
      forall k | 0 <= k < i + 1 ensures next[k].JObject? {
        if k < i {
          assert next[k] == atts[..i][k];
        }
      }
    }
  }
}
