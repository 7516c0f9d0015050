/**
 * The one-off migration of the `file_attachments` column: bare filenames
 * and old-style dicts become dicts with `name`, `filename`, `size` and
 * `url`; lists already in the new shape are left alone.
 */
module FixAttachments {
  import opened Wrappers
  import opened Json
  import opened ChallengeModel

  const DownloadPrefix: string := "/api/files/download/"

  /** The attachment is a dict with a `filename` key. */
  predicate HasFilename(v: Value)
  {
    v.JObject? && HasKey(v.fields, "filename")
  }

  /** The four keys of a migrated attachment, in order. */
  const AttachmentKeys: seq<string> := ["name", "filename", "size", "url"]

  /** A migrated attachment dict; its `name` and `filename` read back as given. */
  function Attachment(name: Value, filename: Value, size: Value, url: Value): (d: seq<(string, Value)>)
    ensures Keys(d) == AttachmentKeys
    ensures Get(d, "name") == Some(name) && Get(d, "filename") == Some(filename)
  {
    var d := [("name", name), ("filename", filename), ("size", size), ("url", url)];
    GetAt(d, 0);
    GetAt(d, 1);
    d
  }

  /** The dict a bare filename becomes. */
  function FromName(s: string): (r: Value)
  {
    JObject(Attachment(JStr(s), JStr(s), JStr("Unknown"), JStr(DownloadPrefix + s)))
  }

  /** The dict an old-style dict (one without `filename`) becomes; the URL embeds `str()` of the filename it falls back to. */
  function FromOldDict(fs: seq<(string, Value)>): (r: Value)
  {
    var filename := GetOr(fs, "filename", GetOr(fs, "name", JStr("Unknown")));
    JObject(Attachment(GetOr(fs, "name", GetOr(fs, "filename", JStr("Unknown"))), filename,
                       GetOr(fs, "size", JStr("Unknown")), JStr(DownloadPrefix + PyStr(filename))))
  }

  /** What one element of the list becomes; `None` drops it. */
  function Element(v: Value): (r: Option<Value>)
    ensures r.Some? ==> HasFilename(r.value)
    ensures HasFilename(v) ==> r == Some(v)
  {
    match v
    case JStr(s) =>
      assert FromName(s).fields[1].0 == "filename";
      Some(FromName(s))
    case JObject(fs) =>
      if HasKey(fs, "filename") then Some(v)
      else
        assert FromOldDict(fs).fields[1].0 == "filename";
        Some(FromOldDict(fs))
    case _ => None
  }

  /** The conversion loop over a list, in order. */
  function Converted(items: seq<Value>): (r: seq<Value>)
    ensures |r| <= |items|
    ensures forall k :: 0 <= k < |r| ==> HasFilename(r[k])
  {
    if items == [] then []
    else
      var e := Element(items[|items| - 1]);
      Converted(items[..|items| - 1]) + (if e.Some? then [e.value] else [])
  }

  /** A list whose first element is a dict with both `filename` and `name`. */
  predicate AlreadyNewFormat(col: Value)
  {
    col.JArray? && |col.items| > 0 && col.items[0].JObject?
    && HasKey(col.items[0].fields, "filename") && HasKey(col.items[0].fields, "name")
  }

  /** The column after the migration: untouched when already in the new format or not a list. */
  function Fixed(col: Value): Value
  {
    if AlreadyNewFormat(col) then col
    else if col.JArray? then JArray(Converted(col.items))
    else col
  }

  /** Only the first element is inspected: later old-style entries survive a list that starts well. */
  lemma FirstElementDecides(first: seq<(string, Value)>, rest: seq<Value>)
    requires HasKey(first, "filename") && HasKey(first, "name")
    ensures Fixed(JArray([JObject(first)] + rest)) == JArray([JObject(first)] + rest)
  {
  }

  /** A bare filename becomes a four-key dict whose name and filename are it and whose URL downloads it. */
  lemma StringConverted(s: string)
    ensures Fixed(JArray([JStr(s)])) == JArray([FromName(s)])
    ensures Keys(FromName(s).fields) == AttachmentKeys
  {
    assert Converted([JStr(s)]) == Converted([]) + [FromName(s)];
  }

  /** An old-style dict keeps only the four keys, filling in what it lacks from the other name or `Unknown`. */
  lemma OldDictConverted(fs: seq<(string, Value)>)
    requires !HasKey(fs, "filename")
    ensures Keys(FromOldDict(fs).fields) == AttachmentKeys
    ensures Get(FromOldDict(fs).fields, "filename") == Some(GetOr(fs, "name", JStr("Unknown")))
    ensures Get(FromOldDict(fs).fields, "name") == Some(GetOr(fs, "name", JStr("Unknown")))
  {
  }

  /** A single element: text and dicts give one dict with `filename`, anything else is dropped. */
  lemma ConvertedSingle(v: Value)
    ensures v.JStr? || v.JObject? ==> Converted([v]) == [Element(v).value]
    ensures !(v.JStr? || v.JObject?) ==> Converted([v]) == []
  {
    assert [v][..0] == [];
  }

  /** The conversion works element by element and keeps the order of the list. */
  lemma {:induction false} ConvertedAppend(xs: seq<Value>, ys: seq<Value>)
    ensures Converted(xs + ys) == Converted(xs) + Converted(ys)
    decreases |ys|
  {
    if ys == [] {
      assert xs + ys == xs;
    } else {
      var init := ys[..|ys| - 1];
      ConvertedAppend(xs, init);
      assert (xs + ys)[..|xs + ys| - 1] == xs + init;
      assert (xs + ys)[|xs + ys| - 1] == ys[|ys| - 1];
    }
  }

  /** A list of dicts that all have `filename` converts to itself. */
  lemma {:induction false} ConvertedFixedPoint(items: seq<Value>)
    requires forall k :: 0 <= k < |items| ==> HasFilename(items[k])
    ensures Converted(items) == items
  {
    if items != [] {
      var init := items[..|items| - 1];
      ConvertedFixedPoint(init);
      assert init + [items[|items| - 1]] == items;
    }
  }

  /** Running the migration twice changes nothing more than running it once. */
  lemma FixedIdempotent(col: Value)
    ensures Fixed(Fixed(col)) == Fixed(col)
  {
    if !AlreadyNewFormat(col) && col.JArray? {
      ConvertedFixedPoint(Converted(col.items));
    }
  }

  /** `fix_challenge_files`: the loop over the challenges that have the column set. */
  method FixChallengeFiles(challenges: seq<Challenge>)
    requires forall i, j :: 0 <= i < j < |challenges| ==> challenges[i] != challenges[j]
    modifies set c | c in challenges :: c`columns
    ensures forall j :: 0 <= j < |challenges| ==>
      challenges[j].Column("file_attachments") == Fixed(old(challenges[j].Column("file_attachments")))
    ensures forall c, n :: c in challenges && n != "file_attachments" ==> c.Column(n) == old(c.Column(n))
  {
    var i := 0;
    while i < |challenges|
      invariant 0 <= i <= |challenges|
      invariant forall j :: 0 <= j < i ==>
        challenges[j].Column("file_attachments") == Fixed(old(challenges[j].Column("file_attachments")))
      invariant forall j :: i <= j < |challenges| ==>
        challenges[j].Column("file_attachments") == old(challenges[j].Column("file_attachments"))
      invariant forall c, n :: c in challenges && n != "file_attachments" ==> c.Column(n) == old(c.Column(n))
    {
      var c := challenges[i];
      assert c in challenges;
      FixOne(c);
      assert forall j :: 0 <= j < |challenges| && j != i ==> challenges[j] != c;
      i := i + 1;
    }
  }

  /** One challenge of the loop: convert the list, or skip it. */
  method FixOne(c: Challenge)
    modifies c`columns
    ensures c.Column("file_attachments") == Fixed(old(c.Column("file_attachments")))
    ensures forall n :: n != "file_attachments" ==> c.Column(n) == old(c.Column(n))
  {
    var col := c.Column("file_attachments");
    if AlreadyNewFormat(col) || !col.JArray? {
      return;
    }
    var items := col.items;
    var newFiles := [];
    var k := 0;
    while k < |items|
      invariant 0 <= k <= |items|
      invariant newFiles == Converted(items[..k])
    {
      assert items[..k + 1][..k] == items[..k];
      var e := Element(items[k]);
      if e.Some? {
        newFiles := newFiles + [e.value];
      }
      k := k + 1;
    }
    assert items[..k] == items;
    c.SetColumn("file_attachments", JArray(newFiles));
  }
}
